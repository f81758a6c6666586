/**
 * The task table both task pages render: which tasks are shown, in which
 * order, and what each row's cells hold.
 */
module TaskTable {
  import opened Tasks
  import opened Html
  import opened Text

  /** A rendered `<tr>`: the id cell, the title and description cells as HTML, the done mark and the toggle button label. */
  datatype Row = Row(id: int, title: string, description: string, done: bool, toggleLabel: string)

  /** The tasks `renderTasks` shows: filtered, then sorted. */
  function Visible(ts: seq<Task>, filterKey: string, search: string, sortKey: string): (v: seq<Task>)
    ensures multiset(v) == multiset(FilterTasks(ts, FilterOf(filterKey), search))
    ensures Sorted(SortKeyOf(sortKey), v)
  {
    SortTasksCorrect(SortKeyOf(sortKey), FilterTasks(ts, FilterOf(filterKey), search));
    SortTasks(SortKeyOf(sortKey), FilterTasks(ts, FilterOf(filterKey), search))
  }

  /** The visible tasks are the kept ones, as many as the filter keeps. */
  lemma VisibleAreKept(ts: seq<Task>, filterKey: string, search: string, sortKey: string)
    ensures |Visible(ts, filterKey, search, sortKey)| == |FilterTasks(ts, FilterOf(filterKey), search)|
    ensures forall t :: t in Visible(ts, filterKey, search, sortKey) ==> t in FilterTasks(ts, FilterOf(filterKey), search)
  {
    var kept := FilterTasks(ts, FilterOf(filterKey), search);
    var v := Visible(ts, filterKey, search, sortKey);
    assert |v| == |multiset(v)| == |multiset(kept)| == |kept|;
    forall t | t in v ensures t in kept {
      assert t in multiset(v);
    }
  }

  /** A row whose text cells go through `esc`. */
  function EscapedRow(t: Task, toggleLabel: string): Row {
    var p := SplitText(t.text);
    Row(t.id, Escape(p.title), Escape(p.description), Done(t), toggleLabel)
  }

  /** A row whose text cells are the raw title and description. */
  function RawRow(t: Task, toggleLabel: string): Row {
    var p := SplitText(t.text);
    Row(t.id, p.title, p.description, Done(t), toggleLabel)
  }

  /** No cell of an escaped row can open a tag or an attribute. */
  predicate NoMarkup(r: Row) {
    '<' !in r.title && '>' !in r.title && '"' !in r.title && '\'' !in r.title
    && '<' !in r.description && '>' !in r.description && '"' !in r.description && '\'' !in r.description
  }

  lemma EscapedRowHasNoMarkup(t: Task, toggleLabel: string)
    ensures NoMarkup(EscapedRow(t, toggleLabel))
  {
    var p := SplitText(t.text);
    EscapeLeavesNoMarkup(p.title);
    EscapeLeavesNoMarkup(p.description);
  }

  /** A row for a plain-text task shows its title and description unchanged. */
  lemma EscapedRowOfPlainText(t: Task, toggleLabel: string)
    requires forall i :: 0 <= i < |t.text| ==> !Special(t.text[i])
    ensures EscapedRow(t, toggleLabel) == RawRow(t, toggleLabel)
  {
    var p := SplitText(t.text);
    if Contains(t.text, Sep) {
      assert t.text == p.title + Sep + p.description;
      assert forall i :: 0 <= i < |p.title| ==> p.title[i] == t.text[i];
      assert forall i :: 0 <= i < |p.description| ==> p.description[i] == t.text[|p.title| + |Sep| + i];
    }
    EscapePlainText(p.title);
    EscapePlainText(p.description);
  }

  /** A task whose title is "<" keeps the raw "<" in an unescaped row. */
  lemma RawRowCarriesMarkup(id: int, isDone: int, toggleLabel: string)
    ensures !NoMarkup(RawRow(Task(id, "<", isDone), toggleLabel))
  {
    assert SplitText("<").title == "<";
  }
}
