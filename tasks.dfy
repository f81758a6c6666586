/**
 * The task logic shared by public/todo.js and public/user.js: the
 * "title - description" encoding of a task's text, the filter predicate and
 * the sort comparators of `renderTasks`, and the payloads of the edit, create
 * and toggle requests.
 */
module Tasks {
  import opened Wrappers
  import opened Text
  import opened Seqs
  import TextFacts

  /** The separator between title and description inside `text`. */
  const Sep := " - "

  /** A row of `tasks`; `isDone` is the TINYINT the server returns. */
  datatype Task = Task(id: int, text: string, isDone: int)

  /** `is_done` is truthy. */
  predicate Done(t: Task) {
    t.isDone != 0
  }

  datatype Parts = Parts(title: string, description: string)

  /**
   * `splitText`: the title is everything before the first " - ", the
   * description everything after it (the remaining pieces joined back with
   * " - ").  Text without a separator is all title.
   */
  function SplitText(text: string): (p: Parts)
    ensures text == "" ==> p == Parts("", "")
    ensures !Contains(text, Sep) ==> p == Parts(text, "")
    ensures Contains(text, Sep) ==> p.title + Sep + p.description == text && IndexOf(text, Sep) == Some(|p.title|)
  {
    match IndexOf(text, Sep)
    case None => Parts(text, "")
    case Some(i) =>
      assert text == text[..i] + Sep + text[i + |Sep|..];
      Parts(text[..i], text[i + |Sep|..])
  }

  /** `desc ? title + " - " + desc : title`. */
  function Compose(title: string, desc: string): (text: string)
    ensures desc == "" ==> text == title
    ensures desc != "" ==> text == title + Sep + desc && StartsWith(text, title)
  {
    if desc != "" then title + Sep + desc else title
  }

  /** `title` ends in " -", so " - " would straddle its end and the separator. */
  predicate EndsInDash(title: string) {
    |title| >= 2 && title[|title| - 2..] == " -"
  }

  /** The title `splitText` returns never contains the separator. */
  lemma TitleHasNoSeparator(text: string)
    ensures !Contains(SplitText(text).title, Sep)
  {
    var p := SplitText(text);
    if Contains(text, Sep) {
      var title := p.title;
      assert text[..|title|] == title;
      forall j | OccursAt(title, Sep, j) ensures false {
        assert title[j..j + |Sep|] == text[j..j + |Sep|];
        IndexOfFirst(text, Sep, j);
      }
    }
  }

  /**
   * Splitting a composed text gives back its title and description exactly
   * when the separator cannot be found earlier: the title contains no " - "
   * and does not end in " -".
   */
  lemma {:induction false} SplitCompose(title: string, desc: string)
    requires !Contains(title, Sep) && !EndsInDash(title)
    ensures SplitText(Compose(title, desc)) == Parts(title, desc)
  {
    if desc != "" {
      var text := title + Sep + desc;
      assert OccursAt(text, Sep, |title|);
      IndexOfFirst(text, Sep, |title|);
      forall j | 0 <= j < |title| ensures !OccursAt(text, Sep, j) {
        OccursThenContains(title, Sep, j);
        NoEarlySeparator(title, desc, j);
      }
      assert IndexOf(text, Sep) == Some(|title|);
      assert text[..|title|] == title;
      assert text[|title| + |Sep|..] == desc;
    }
  }

  /** No separator starts inside the title of a composed text, under the conditions of `SplitCompose`. */
  lemma NoEarlySeparator(title: string, desc: string, j: int)
    requires !OccursAt(title, Sep, j) && !EndsInDash(title) && 0 <= j < |title|
    ensures !OccursAt(title + Sep + desc, Sep, j)
  {
    var text := title + Sep + desc;
    if j + |Sep| <= |title| {
      assert title[j..j + |Sep|] == text[j..j + |Sep|];
    } else if j == |title| - 1 {
      assert text[j + 1] == ' ';
    } else {
      assert text[j + 2] == ' ' && title[|title| - 2..] == [text[j], text[j + 1]];
    }
  }

  /** A title ending in " -" loses its dash to the description: "a -" with "b" reads back as "a" with "- b". */
  lemma SplitComposeDashTitle(desc: string)
    requires desc != ""
    ensures SplitText(Compose("a -", desc)) == Parts("a", "- " + desc)
  {
    var text := Compose("a -", desc);
    assert text == "a -" + Sep + desc;
    assert OccursAt(text, Sep, 1);
    IndexOfFirst(text, Sep, 1);
    assert !OccursAt(text, Sep, 0);
    assert text[..1] == "a";
    assert text[1 + |Sep|..] == "- " + desc;
  }

  /** The filter buttons' `data-filter` values; any other value matches nothing. */
  datatype Filter = All | DoneOnly | NotDone | HasDesc | NoMatch

  function FilterOf(key: string): (f: Filter)
    ensures f == All <==> key == "all"
    ensures f == NoMatch <==> key !in {"all", "done", "notDone", "hasDesc"}
  {
    if key == "all" then All
    else if key == "done" then DoneOnly
    else if key == "notDone" then NotDone
    else if key == "hasDesc" then HasDesc
    else NoMatch
  }

  /** `okFilter` of `renderTasks`. */
  predicate MatchesFilter(f: Filter, t: Task) {
    match f
    case All => true
    case DoneOnly => Done(t)
    case NotDone => !Done(t)
    case HasDesc => !Blank(SplitText(t.text).description)
    case NoMatch => false
  }

  /** `okSearch`: no query, or the lower-cased title contains the lower-cased query. */
  predicate MatchesSearch(query: string, t: Task) {
    query == "" || Contains(Lower(SplitText(t.text).title), Lower(query))
  }

  predicate Keep(f: Filter, query: string, t: Task) {
    MatchesFilter(f, t) && MatchesSearch(query, t)
  }

  /** `tasks.filter(...)`: the tasks that pass, in their original order. */
  function FilterTasks(ts: seq<Task>, f: Filter, query: string): (r: seq<Task>)
    ensures |r| <= |ts|
    ensures forall t :: t in r <==> t in ts && Keep(f, query, t)
  {
    if ts == [] then []
    else
      var rest := FilterTasks(ts[..|ts| - 1], f, query);
      var last := ts[|ts| - 1];
      assert forall t :: t in ts <==> t in ts[..|ts| - 1] || t == last;
      if Keep(f, query, last) then rest + [last] else rest
  }

  /** Every kept task appears as often as in the input; every other task not at all. */
  lemma {:induction false} FilterTasksCounts(ts: seq<Task>, f: Filter, query: string, t: Task)
    ensures multiset(FilterTasks(ts, f, query))[t] == if Keep(f, query, t) then multiset(ts)[t] else 0
  {
    if ts != [] {
      var init, last := ts[..|ts| - 1], ts[|ts| - 1];
      FilterTasksCounts(init, f, query, t);
      assert ts == init + [last];
      if Keep(f, query, last) {
        assert FilterTasks(ts, f, query) == FilterTasks(init, f, query) + [last];
      }
    }
  }

  lemma {:induction false} FilterIsSubsequence(ts: seq<Task>, f: Filter, query: string)
    ensures Subsequence(FilterTasks(ts, f, query), ts)
  {
    if ts != [] {
      var r := FilterTasks(ts, f, query);
      FilterIsSubsequence(ts[..|ts| - 1], f, query);
      if Keep(f, query, ts[|ts| - 1]) {
        assert r[..|r| - 1] == FilterTasks(ts[..|ts| - 1], f, query);
      }
    }
  }

  /** The "all" filter with no search keeps every task, in order. */
  lemma {:induction false} FilterAllKeepsAll(ts: seq<Task>)
    ensures FilterTasks(ts, All, "") == ts
  {
    if ts != [] {
      FilterAllKeepsAll(ts[..|ts| - 1]);
      assert ts[..|ts| - 1] + [ts[|ts| - 1]] == ts;
    }
  }

  /** "done" and "notDone" split what the search keeps into two parts, by `is_done`. */
  lemma {:induction false} DoneNotDonePartition(ts: seq<Task>, query: string)
    ensures multiset(FilterTasks(ts, DoneOnly, query)) + multiset(FilterTasks(ts, NotDone, query))
            == multiset(FilterTasks(ts, All, query))
    ensures forall t :: t in FilterTasks(ts, DoneOnly, query) ==> t !in FilterTasks(ts, NotDone, query)
  {
    if ts != [] {
      DoneNotDonePartition(ts[..|ts| - 1], query);
    }
  }

  /** Searching ignores ASCII case on both sides. */
  lemma SearchIgnoresCase(query: string, t: Task)
    ensures MatchesSearch(query, t) == MatchesSearch(Lower(query), t)
  {
    var q := Lower(query);
    TextFacts.LowerIdempotent(query);
    assert q == "" <==> query == "";
  }

  /** The options of the sort select; any other value sorts newest first. */
  datatype SortKey = Oldest | Newest | TitleAZ | TitleZA | DoneFirst | NotDoneFirst

  function SortKeyOf(key: string): (k: SortKey)
    ensures key !in {"oldest", "titleAZ", "titleZA", "doneFirst", "notDoneFirst"} ==> k == Newest
  {
    if key == "oldest" then Oldest
    else if key == "titleAZ" then TitleAZ
    else if key == "titleZA" then TitleZA
    else if key == "doneFirst" then DoneFirst
    else if key == "notDoneFirst" then NotDoneFirst
    else Newest
  }

  /**
   * String comparison by code point, standing in for `localeCompare`:
   * negative, zero or positive as `a` sorts before, with or after `b`.
   */
  function Collate(a: string, b: string): int {
    if a == [] && b == [] then 0
    else if a == [] then -1
    else if b == [] then 1
    else if a[0] < b[0] then -1
    else if a[0] > b[0] then 1
    else Collate(a[1..], b[1..])
  }

  lemma {:induction false} CollateAntisymmetric(a: string, b: string)
    ensures Collate(a, b) == -Collate(b, a)
  {
    if a != [] && b != [] && a[0] == b[0] {
      CollateAntisymmetric(a[1..], b[1..]);
    }
  }

  lemma {:induction false} CollateTransitive(a: string, b: string, c: string)
    requires Collate(a, b) <= 0 && Collate(b, c) <= 0
    ensures Collate(a, c) <= 0
  {
    if a != [] && b != [] && c != [] && a[0] == b[0] && b[0] == c[0] {
      CollateTransitive(a[1..], b[1..], c[1..]);
    }
  }

  /** `(is_done ? 1 : 0)`. */
  function Flag(t: Task): int {
    if Done(t) then 1 else 0
  }

  /** The lower-cased title the title sorts compare. */
  function TitleKey(t: Task): string {
    Lower(SplitText(t.text).title)
  }

  /** The comparator `renderTasks` hands to `sort`. */
  function Compare(k: SortKey, a: Task, b: Task): int {
    match k
    case Oldest => a.id - b.id
    case Newest => b.id - a.id
    case TitleAZ => Collate(TitleKey(a), TitleKey(b))
    case TitleZA => Collate(TitleKey(b), TitleKey(a))
    case DoneFirst => Flag(b) - Flag(a)
    case NotDoneFirst => Flag(a) - Flag(b)
  }

  /** Each comparator orders as its sort key names: ids up or down, done flags, titles reflexively. */
  lemma {:induction false} CompareMeaning(k: SortKey, a: Task, b: Task)
    ensures Compare(k, a, a) == 0
    ensures k == Oldest ==> (Compare(k, a, b) < 0 <==> a.id < b.id)
    ensures k == Newest ==> (Compare(k, a, b) < 0 <==> a.id > b.id)
    ensures k == DoneFirst ==> (Compare(k, a, b) < 0 <==> Done(a) && !Done(b))
    ensures k == NotDoneFirst ==> (Compare(k, a, b) < 0 <==> !Done(a) && Done(b))
  {
    CollateSelf(TitleKey(a));
  }

  lemma {:induction false} CollateSelf(a: string)
    ensures Collate(a, a) == 0
  {
    if a != [] {
      CollateSelf(a[1..]);
    }
  }

  /** Every comparator is antisymmetric and transitive, so a sort by it is well defined. */
  lemma CompareAntisymmetric(k: SortKey, a: Task, b: Task)
    ensures Compare(k, a, b) == -Compare(k, b, a)
  {
    if k == TitleAZ || k == TitleZA {
      CollateAntisymmetric(TitleKey(a), TitleKey(b));
    }
  }

  lemma CompareTransitive(k: SortKey, a: Task, b: Task, c: Task)
    requires Compare(k, a, b) <= 0 && Compare(k, b, c) <= 0
    ensures Compare(k, a, c) <= 0
  {
    if k == TitleAZ {
      CollateTransitive(TitleKey(a), TitleKey(b), TitleKey(c));
    } else if k == TitleZA {
      CollateTransitive(TitleKey(c), TitleKey(b), TitleKey(a));
    }
  }

  predicate Sorted(k: SortKey, s: seq<Task>) {
    forall i, j :: 0 <= i < j < |s| ==> Compare(k, s[i], s[j]) <= 0
  }

  /** Places `x` after every entry that does not compare above it. */
  function Insert(k: SortKey, x: Task, s: seq<Task>): (r: seq<Task>)
    ensures |r| == |s| + 1
  {
    if s == [] then [x]
    else if Compare(k, x, s[0]) < 0 then [x] + s
    else [s[0]] + Insert(k, x, s[1..])
  }

  /**
   * `[...filtered].sort(cmp)`: `Array.prototype.sort` is stable, and so is
   * inserting the entries one by one in their original order (`SortTasksStable`).
   */
  function SortTasks(k: SortKey, s: seq<Task>): (r: seq<Task>)
    ensures |r| == |s|
  {
    if s == [] then []
    else Insert(k, s[|s| - 1], SortTasks(k, s[..|s| - 1]))
  }

  /** An entry that compares at or below everything in a sorted list can go in front of it. */
  lemma PrependSorted(k: SortKey, x: Task, s: seq<Task>)
    requires Sorted(k, s)
    requires forall j :: 0 <= j < |s| ==> Compare(k, x, s[j]) <= 0
    ensures Sorted(k, [x] + s)
  {
    var r := [x] + s;
    forall i, j | 0 <= i < j < |r| ensures Compare(k, r[i], r[j]) <= 0 {
      if i > 0 {
        assert r[i] == s[i - 1] && r[j] == s[j - 1];
      } else {
        assert r[i] == x && r[j] == s[j - 1];
      }
    }
  }

  lemma {:induction false} InsertPermutes(k: SortKey, x: Task, s: seq<Task>)
    ensures multiset(Insert(k, x, s)) == multiset(s) + multiset{x}
    decreases |s|
  {
    if s != [] && Compare(k, x, s[0]) >= 0 {
      var rest := Insert(k, x, s[1..]);
      assert Insert(k, x, s) == [s[0]] + rest;
      InsertPermutes(k, x, s[1..]);
      MultisetCons(s);
      MultisetCons([s[0]] + rest);
      assert ([s[0]] + rest)[1..] == rest;
    }
  }

  lemma SortedTail(k: SortKey, s: seq<Task>)
    requires Sorted(k, s) && s != []
    ensures Sorted(k, s[1..])
  {
    var tail := s[1..];
    forall i, j | 0 <= i < j < |tail| ensures Compare(k, tail[i], tail[j]) <= 0 {
      assert tail[i] == s[i + 1] && tail[j] == s[j + 1];
    }
  }

  lemma {:induction false} InsertSorted(k: SortKey, x: Task, s: seq<Task>)
    requires Sorted(k, s)
    ensures Sorted(k, Insert(k, x, s))
    decreases |s|
  {
    if s == [] {
    } else if Compare(k, x, s[0]) < 0 {
      forall j | 0 <= j < |s| ensures Compare(k, x, s[j]) <= 0 {
        if j > 0 {
          CompareTransitive(k, x, s[0], s[j]);
        }
      }
      PrependSorted(k, x, s);
    } else {
      var tail := s[1..];
      SortedTail(k, s);
      InsertSorted(k, x, tail);
      var rest := Insert(k, x, tail);
      InsertPermutes(k, x, tail);
      CompareAntisymmetric(k, x, s[0]);
      forall j | 0 <= j < |rest| ensures Compare(k, s[0], rest[j]) <= 0 {
        var y := rest[j];
        assert y in multiset(rest);
        if y != x {
          assert y in multiset(tail);
          var m :| 0 <= m < |tail| && tail[m] == y;
          assert s[m + 1] == y;
        }
      }
      PrependSorted(k, s[0], rest);
    }
  }

  lemma {:induction false} SortTasksSorted(k: SortKey, s: seq<Task>)
    ensures Sorted(k, SortTasks(k, s))
  {
    if s != [] {
      SortTasksSorted(k, s[..|s| - 1]);
      InsertSorted(k, s[|s| - 1], SortTasks(k, s[..|s| - 1]));
    }
  }

  lemma {:induction false} SortTasksPermutes(k: SortKey, s: seq<Task>)
    ensures multiset(SortTasks(k, s)) == multiset(s)
  {
    if s != [] {
      var init, last := s[..|s| - 1], s[|s| - 1];
      var sorted := SortTasks(k, init);
      assert SortTasks(k, s) == Insert(k, last, sorted);
      SortTasksPermutes(k, init);
      InsertPermutes(k, last, sorted);
      MultisetSnoc(s);
    }
  }



  /** The entries of `s` that the comparator puts level with `p`, in their order in `s`. */
  function Ties(k: SortKey, s: seq<Task>, p: Task): seq<Task> {
    KeepIf(c => Compare(k, c, p) == 0, s)
  }

  /** Two entries level with the same task are level with each other. */
  lemma TiedTogether(k: SortKey, x: Task, y: Task, p: Task)
    requires Compare(k, x, p) == 0 && Compare(k, y, p) == 0
    ensures Compare(k, x, y) == 0
  {
    CompareAntisymmetric(k, x, p);
    CompareAntisymmetric(k, y, p);
    CompareTransitive(k, x, p, y);
    CompareTransitive(k, y, p, x);
    CompareAntisymmetric(k, x, y);
  }

  /** Below one entry and not above a second, an entry is below the second. */
  lemma BelowThenBelow(k: SortKey, x: Task, y: Task, z: Task)
    requires Compare(k, x, y) < 0 && Compare(k, y, z) <= 0
    ensures Compare(k, x, z) < 0
  {
    CompareAntisymmetric(k, x, z);
    CompareAntisymmetric(k, x, y);
    if Compare(k, z, x) <= 0 {
      CompareTransitive(k, y, z, x);
    }
  }

  /** An entry below the head of a sorted list is level with none of its entries' peers. */
  lemma NoTiesAfterBelow(k: SortKey, x: Task, r: seq<Task>, p: Task)
    requires Sorted(k, r) && r != [] && Compare(k, x, r[0]) < 0 && Compare(k, x, p) == 0
    ensures Ties(k, r, p) == []
  {
    forall i | 0 <= i < |r| ensures Compare(k, r[i], p) != 0 {
      if i > 0 {
        BelowThenBelow(k, x, r[0], r[i]);
      }
      if Compare(k, r[i], p) == 0 {
        TiedTogether(k, x, r[i], p);
      }
    }
    KeepIfNone(c => Compare(k, c, p) == 0, r);
  }

  /** Inserting puts `x` after every entry of the sorted list that is level with it. */
  lemma InsertTiesFront(k: SortKey, x: Task, r: seq<Task>, p: Task)
    requires Sorted(k, r) && r != [] && Compare(k, x, r[0]) < 0
    ensures Ties(k, [x] + r, p) == Ties(k, r + [x], p)
  {
    KeepIfAppend(c => Compare(k, c, p) == 0, [x], r);
    KeepIfAppend(c => Compare(k, c, p) == 0, r, [x]);
    if Compare(k, x, p) == 0 {
      NoTiesAfterBelow(k, x, r, p);
    } else {
      assert Ties(k, [x], p) == [];
    }
  }

  /** Inserting into a sorted list keeps the entries level with `p` as if `x` were appended. */
  lemma {:induction false} InsertTies(k: SortKey, x: Task, r: seq<Task>, p: Task)
    requires Sorted(k, r)
    ensures Ties(k, Insert(k, x, r), p) == Ties(k, r + [x], p)
    decreases |r|
  {
    if r == [] {
      assert Insert(k, x, r) == [x] == r + [x];
    } else if Compare(k, x, r[0]) < 0 {
      assert Insert(k, x, r) == [x] + r;
      InsertTiesFront(k, x, r, p);
    } else {
      var rest := Insert(k, x, r[1..]);
      assert Insert(k, x, r) == [r[0]] + rest;
      SortedTail(k, r);
      InsertTies(k, x, r[1..], p);
      KeepIfAppend(c => Compare(k, c, p) == 0, [r[0]], rest);
      KeepIfAppend(c => Compare(k, c, p) == 0, [r[0]], r[1..] + [x]);
      assert [r[0]] + (r[1..] + [x]) == r + [x];
    }
  }

  /**
   * The sort is stable, as `Array.prototype.sort` is: the entries level with
   * any given task come out in the order they went in.
   */
  lemma {:induction false} SortTasksStable(k: SortKey, s: seq<Task>, p: Task)
    ensures Ties(k, SortTasks(k, s), p) == Ties(k, s, p)
  {
    if s != [] {
      var init, last := s[..|s| - 1], s[|s| - 1];
      var sorted := SortTasks(k, init);
      assert SortTasks(k, s) == Insert(k, last, sorted);
      SortTasksStable(k, init, p);
      SortTasksSorted(k, init);
      InsertTies(k, last, sorted, p);
      KeepIfAppend(c => Compare(k, c, p) == 0, sorted, [last]);
      KeepIfAppend(c => Compare(k, c, p) == 0, init, [last]);
      assert s == init + [last];
    }
  }


  /** The sorted list is a permutation of the filtered one, ordered by the comparator. */
  lemma SortTasksCorrect(k: SortKey, s: seq<Task>)
    ensures Sorted(k, SortTasks(k, s))
    ensures multiset(SortTasks(k, s)) == multiset(s)
  {
    SortTasksSorted(k, s);
    SortTasksPermutes(k, s);
  }

  /** "oldest" is by id ascending, "newest" and unknown keys by id descending. */
  lemma SortById(key: string, s: seq<Task>)
    requires key == "oldest" || SortKeyOf(key) == Newest
    ensures var r := SortTasks(SortKeyOf(key), s);
      forall i, j :: 0 <= i < j < |r| ==> if key == "oldest" then r[i].id <= r[j].id else r[i].id >= r[j].id
  {
    SortTasksSorted(SortKeyOf(key), s);
  }

  /** Under the two `is_done` sorts, an entry at or below another is done first, or not done first. */
  lemma FlagOrder(k: SortKey, a: Task, b: Task)
    requires k == DoneFirst || k == NotDoneFirst
    requires Compare(k, a, b) <= 0
    ensures k == DoneFirst ==> Done(a) || !Done(b)
    ensures k == NotDoneFirst ==> !Done(a) || Done(b)
  {
  }

  /** "doneFirst" puts every done task before every task not done. */
  lemma SortDoneFirst(s: seq<Task>)
    ensures var r := SortTasks(DoneFirst, s);
      forall i, j :: 0 <= i < |r| && 0 <= j < |r| && Done(r[i]) && !Done(r[j]) ==> i < j
  {
    var r := SortTasks(DoneFirst, s);
    SortTasksSorted(DoneFirst, s);
    forall i, j | 0 <= j < i < |r| ensures Done(r[j]) || !Done(r[i]) {
      FlagOrder(DoneFirst, r[j], r[i]);
    }
  }

  /** "notDoneFirst" puts every task not done before every done task. */
  lemma SortNotDoneFirst(s: seq<Task>)
    ensures var r := SortTasks(NotDoneFirst, s);
      forall i, j :: 0 <= i < |r| && 0 <= j < |r| && !Done(r[i]) && Done(r[j]) ==> i < j
  {
    var r := SortTasks(NotDoneFirst, s);
    SortTasksSorted(NotDoneFirst, s);
    forall i, j | 0 <= j < i < |r| ensures !Done(r[j]) || Done(r[i]) {
      FlagOrder(NotDoneFirst, r[j], r[i]);
    }
  }

  /** The PUT body of `toggleDone`: the same text, `is_done` flipped to 1 or 0. */
  datatype TaskUpdate = TaskUpdate(text: string, isDone: int)

  function ToggleBody(t: Task): (u: TaskUpdate)
    ensures u.text == t.text && (u.isDone == 0 || u.isDone == 1)
    ensures u.isDone != 0 <==> !Done(t)
  {
    TaskUpdate(t.text, if Done(t) then 0 else 1)
  }

  /** Toggling twice lands on the original truthiness; toggling moves a task between "done" and "notDone". */
  lemma ToggleTwice(t: Task)
    ensures var u := ToggleBody(t);
      var back := ToggleBody(Task(t.id, u.text, u.isDone));
      back.text == t.text && (back.isDone != 0 <==> Done(t))
    ensures MatchesFilter(DoneOnly, t) <==> MatchesFilter(NotDone, Task(t.id, t.text, ToggleBody(t).isDone))
  {
  }

  /**
   * The create and edit forms: both inputs trimmed, an empty title refused
   * (`None`, no request made), otherwise the composed text.
   */
  function NewTaskText(titleInput: string, descInput: string): (text: Option<string>)
    ensures text.None? <==> Blank(titleInput)
  {
    var title := Trim(titleInput);
    if title == "" then None else Some(Compose(title, Trim(descInput)))
  }

  /** What the forms send reads back as the trimmed title and description. */
  lemma NewTaskTextRoundTrip(titleInput: string, descInput: string)
    requires !Blank(titleInput)
    requires !Contains(Trim(titleInput), Sep) && !EndsInDash(Trim(titleInput))
    ensures NewTaskText(titleInput, descInput).Some?
    ensures SplitText(NewTaskText(titleInput, descInput).value) == Parts(Trim(titleInput), Trim(descInput))
  {
    SplitCompose(Trim(titleInput), Trim(descInput));
  }

  /** The edit form's PUT body: the new text with the task's `is_done` unchanged. */
  function EditBody(editing: Task, titleInput: string, descInput: string): (u: Option<TaskUpdate>)
    ensures u.None? <==> Blank(titleInput)
    ensures u.Some? ==> u.value.isDone == editing.isDone && Some(u.value.text) == NewTaskText(titleInput, descInput)
  {
    match NewTaskText(titleInput, descInput)
    case None => None
    case Some(text) => Some(TaskUpdate(text, editing.isDone))
  }
}
