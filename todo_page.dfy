/**
 * public/todo.js: the task page's module state, reassigned by its event
 * handlers, and `renderTasks`, which rebuilds the table body row by row.
 */
module TodoPage {
  import opened Wrappers
  import opened Text
  import opened Tasks
  import opened TaskTable
  import opened Seqs

  const EmptyNotice := "No tasks for this filter/search."

  /** The toggle button's label: "Undone" on a done task, "Done" otherwise. */
  function ToggleLabel(t: Task): (text: string)
    ensures text == "Undone" <==> Done(t)
  {
    if Done(t) then "Undone" else "Done"
  }

  /** The row of one task: text cells escaped, the toggle labelled by its state. */
  function TaskRow(t: Task): Row {
    EscapedRow(t, ToggleLabel(t))
  }

  /** One escaped row per task, in order. */
  function RowsOf(v: seq<Task>): seq<Row> {
    Map(TaskRow, v)
  }

  /** The rows the page shows for its state. */
  function PageRows(ts: seq<Task>, filterKey: string, search: string, sortKey: string): seq<Row> {
    RowsOf(Visible(ts, filterKey, search, sortKey))
  }

  /** Every row shown is a task that passes the filter and the search, and none can inject markup. */
  lemma PageRowsSound(ts: seq<Task>, filterKey: string, search: string, sortKey: string)
    ensures |PageRows(ts, filterKey, search, sortKey)| == |FilterTasks(ts, FilterOf(filterKey), search)|
    ensures forall r :: r in PageRows(ts, filterKey, search, sortKey) ==>
      NoMarkup(r) && exists t :: t in ts && Keep(FilterOf(filterKey), search, t) && r == TaskRow(t)
  {
    var v := Visible(ts, filterKey, search, sortKey);
    var rows := RowsOf(v);
    VisibleAreKept(ts, filterKey, search, sortKey);
    forall r | r in rows
      ensures NoMarkup(r) && exists t :: t in ts && Keep(FilterOf(filterKey), search, t) && r == TaskRow(t)
    {
      var i :| 0 <= i < |rows| && rows[i] == r;
      var t := v[i];
      assert t in v;
      EscapedRowHasNoMarkup(t, ToggleLabel(t));
    }
  }

  /** The `for (const t of sorted)` loop: one row appended per task. */
  method BuildRows(sorted: seq<Task>) returns (rows: seq<Row>)
    ensures rows == RowsOf(sorted)
  {
    rows := [];
    for i := 0 to |sorted|
      invariant rows == RowsOf(sorted[..i])
    {
      assert sorted[..i + 1][..i] == sorted[..i];
      rows := rows + [TaskRow(sorted[i])];
    }
    assert sorted[..|sorted|] == sorted;
  }

  class Page {
    var tasks: seq<Task>
    var filterKey: string
    var search: string
    var sortKey: string
    var editing: Option<Task>
    /** The rows of `#tasksBody`. */
    var rows: seq<Row>
    /** The text of `#tasksMessage`. */
    var notice: string

    constructor ()
      ensures tasks == [] && filterKey == "all" && search == "" && sortKey == "newest"
      ensures editing == None && rows == [] && notice == ""
    {
      tasks := [];
      filterKey := "all";
      search := "";
      sortKey := "newest";
      editing := None;
      rows := [];
      notice := "";
    }

    /** `renderTasks`: an empty selection shows the notice; otherwise one escaped row per visible task. */
    method Render()
      modifies this
      ensures tasks == old(tasks) && filterKey == old(filterKey) && search == old(search)
      ensures sortKey == old(sortKey) && editing == old(editing)
      ensures rows == PageRows(tasks, filterKey, search, sortKey)
      ensures notice == if rows == [] then EmptyNotice else old(notice)
    {
      var sorted := Visible(tasks, filterKey, search, sortKey);
      assert PageRows(tasks, filterKey, search, sortKey) == RowsOf(sorted);
      if |sorted| == 0 {
        assert RowsOf(sorted) == [];
        rows := [];
        notice := EmptyNotice;
      } else {
        rows := BuildRows(sorted);
        assert rows != [] by { assert |rows| == |sorted|; }
      }
    }

    /** `loadTasks` after a successful fetch: store the list, render, clear the notice. */
    method Loaded(ts: seq<Task>)
      modifies this
      ensures tasks == ts && rows == PageRows(ts, filterKey, search, sortKey) && notice == ""
      ensures filterKey == old(filterKey) && search == old(search) && sortKey == old(sortKey) && editing == old(editing)
    {
      tasks := ts;
      Render();
      notice := "";
    }

    /** A filter button: `btn.dataset.filter || "all"`. */
    method ChooseFilter(dataFilter: string)
      modifies this
      ensures filterKey == (if dataFilter == "" then "all" else dataFilter)
      ensures tasks == old(tasks) && search == old(search) && sortKey == old(sortKey) && editing == old(editing)
      ensures rows == PageRows(tasks, filterKey, search, sortKey)
      ensures notice == if rows == [] then EmptyNotice else old(notice)
    {
      filterKey := if dataFilter == "" then "all" else dataFilter;
      Render();
    }

    /** The search button keeps the trimmed input; the clear button empties it. */
    method Search(input: string)
      modifies this
      ensures search == Trim(input)
      ensures tasks == old(tasks) && filterKey == old(filterKey) && sortKey == old(sortKey) && editing == old(editing)
      ensures rows == PageRows(tasks, filterKey, search, sortKey)
      ensures notice == if rows == [] then EmptyNotice else old(notice)
    {
      search := Trim(input);
      Render();
    }

    method ClearSearch()
      modifies this
      ensures search == ""
      ensures tasks == old(tasks) && filterKey == old(filterKey) && sortKey == old(sortKey) && editing == old(editing)
      ensures rows == PageRows(tasks, filterKey, "", sortKey)
      ensures notice == if rows == [] then EmptyNotice else old(notice)
    {
      search := "";
      Render();
    }

    /** The sort select: `value || "newest"`. */
    method ChooseSort(value: string)
      modifies this
      ensures sortKey == (if value == "" then "newest" else value)
      ensures tasks == old(tasks) && filterKey == old(filterKey) && search == old(search) && editing == old(editing)
      ensures rows == PageRows(tasks, filterKey, search, sortKey)
      ensures notice == if rows == [] then EmptyNotice else old(notice)
    {
      sortKey := if value == "" then "newest" else value;
      Render();
    }

    /** `startEdit`: remember the task and fill the form with its split text. */
    method StartEdit(t: Task) returns (title: string, description: string)
      modifies this
      ensures editing == Some(t)
      ensures Parts(title, description) == SplitText(t.text)
      ensures tasks == old(tasks) && rows == old(rows) && notice == old(notice)
      ensures filterKey == old(filterKey) && search == old(search) && sortKey == old(sortKey)
    {
      editing := Some(t);
      var p := SplitText(t.text);
      title, description := p.title, p.description;
    }

    method CancelEdit()
      modifies this
      ensures editing == None
      ensures tasks == old(tasks) && rows == old(rows) && notice == old(notice)
      ensures filterKey == old(filterKey) && search == old(search) && sortKey == old(sortKey)
    {
      editing := None;
    }

    /**
     * The edit form: nothing without a task being edited or with a blank
     * title; otherwise the PUT for that task.  `saved` is whether the server
     * accepted it, which closes the form.
     */
    method SubmitEdit(titleInput: string, descInput: string, saved: bool) returns (put: Option<(int, TaskUpdate)>)
      modifies this
      ensures old(editing).None? ==> put.None?
      ensures old(editing).Some? ==>
        put == match EditBody(old(editing).value, titleInput, descInput)
               case None => None
               case Some(u) => Some((old(editing).value.id, u))
      ensures editing == if put.Some? && saved then None else old(editing)
      ensures tasks == old(tasks) && rows == old(rows) && notice == old(notice)
      ensures filterKey == old(filterKey) && search == old(search) && sortKey == old(sortKey)
    {
      put := None;
      var current := editing;
      if current.None? {
        return;
      }
      match EditBody(current.value, titleInput, descInput)
      case None =>
      case Some(u) =>
        put := Some((current.value.id, u));
        if saved {
          editing := None;
        }
    }
  }

  /** The header label: the stored user name, or an em dash. */
  function MeLabel(userName: string): (text: string)
    ensures text != ""
    ensures userName != "" ==> text == userName
    ensures userName == "" ==> text == "—"
  {
    if userName != "" then userName else "—"
  }
}
