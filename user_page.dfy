/**
 * public/user.js: the account page with its own task table.  Its state is
 * the same as the task page's, but the filter and sort handlers store the
 * control's value with no fallback, and the welcome label falls back to the
 * user id.
 */
module UserPage {
  import opened Wrappers
  import opened Text
  import opened Tasks
  import opened TaskTable
  import opened Seqs

  const EmptyNotice := "No tasks for this filter/search."
  /** user.js labels every toggle button the same way. */
  const ToggleText := "Toggle Done"

  /** `userName ? userName : "User #" + userId`. */
  function Welcome(userName: string, userId: string): (text: string)
    ensures text != ""
    ensures userName != "" ==> text == userName
    ensures userName == "" ==> StartsWith(text, "User #") && text[|"User #"|..] == userId
  {
    if userName != "" then userName else "User #" + userId
  }

  /** The row of one task exactly as user.js builds it: title and description go into the cells unescaped. */
  function RawTaskRow(t: Task): Row {
    RawRow(t, ToggleText)
  }

  function RowsAsWritten(v: seq<Task>): seq<Row> {
    Map(RawTaskRow, v)
  }

  /** A task titled "<" reaches `innerHTML` as a raw "<": the page renders stored markup. */
  lemma RowsAsWrittenCarryMarkup(id: int, isDone: int)
    ensures exists r :: r in RowsAsWritten([Task(id, "<", isDone)]) && !NoMarkup(r)
  {
    RawRowCarriesMarkup(id, isDone, ToggleText);
    assert RowsAsWritten([Task(id, "<", isDone)])[0] == RawTaskRow(Task(id, "<", isDone));
  }

  /** The rows `renderTasks` shows: the visible tasks, their text unescaped, as user.js builds them. */
  function PageRows(ts: seq<Task>, filterKey: string, search: string, sortKey: string): seq<Row> {
    RowsAsWritten(Visible(ts, filterKey, search, sortKey))
  }

  /** The page shows a row for "<" with the raw markup in it. */
  lemma PageRowsCarryMarkup(id: int, isDone: int)
    ensures exists r :: r in PageRows([Task(id, "<", isDone)], "all", "", "newest") && !NoMarkup(r)
  {
    var t := Task(id, "<", isDone);
    assert FilterTasks([t], FilterOf("all"), "") == [t] by {
      FilterAllKeepsAll([t]);
    }
    assert Visible([t], "all", "", "newest") == [t] by {
      VisibleAreKept([t], "all", "", "newest");
    }
    RowsAsWrittenCarryMarkup(id, isDone);
  }

  /** The corrected row of one task: text cells escaped, as the task page builds them. */
  function TaskRow(t: Task): Row {
    EscapedRow(t, ToggleText)
  }

  function RowsOf(v: seq<Task>): seq<Row> {
    Map(TaskRow, v)
  }

  /** Escaped rows carry no markup, whatever the tasks hold. */
  lemma RowsOfHaveNoMarkup(v: seq<Task>)
    ensures forall r :: r in RowsOf(v) ==> NoMarkup(r)
  {
    forall r | r in RowsOf(v) ensures NoMarkup(r) {
      var i :| 0 <= i < |v| && RowsOf(v)[i] == r;
      EscapedRowHasNoMarkup(v[i], ToggleText);
    }
  }

  /** Escaping changes nothing for tasks free of the five special characters. */
  lemma RowsOfPlainText(v: seq<Task>)
    requires forall t, i :: t in v && 0 <= i < |t.text| ==> !Html.Special(t.text[i])
    ensures RowsOf(v) == RowsAsWritten(v)
  {
    forall i | 0 <= i < |v| ensures RowsOf(v)[i] == RowsAsWritten(v)[i] {
      EscapedRowOfPlainText(v[i], ToggleText);
    }
  }

  /** On tasks free of special characters the page as written already shows the corrected rows. */
  lemma PageRowsOfPlainText(ts: seq<Task>, filterKey: string, search: string, sortKey: string)
    requires forall t, i :: t in ts && 0 <= i < |t.text| ==> !Html.Special(t.text[i])
    ensures PageRows(ts, filterKey, search, sortKey) == RowsOf(Visible(ts, filterKey, search, sortKey))
  {
    var v := Visible(ts, filterKey, search, sortKey);
    VisibleAreKept(ts, filterKey, search, sortKey);
    FilterIsSubsequence(ts, FilterOf(filterKey), search);
    forall t | t in v ensures t in ts {
      assert t in FilterTasks(ts, FilterOf(filterKey), search);
    }
    RowsOfPlainText(v);
  }

  /** The `sorted.forEach` loop: one unescaped row appended per task. */
  method BuildRows(sorted: seq<Task>) returns (rows: seq<Row>)
    ensures rows == RowsAsWritten(sorted)
  {
    rows := [];
    var i := 0;
    while i < |sorted|
      invariant 0 <= i <= |sorted|
      invariant rows == RowsAsWritten(sorted[..i])
    {
      assert sorted[..i + 1][..i] == sorted[..i];
      rows := rows + [RawTaskRow(sorted[i])];
      i := i + 1;
    }
    assert sorted[..i] == sorted;
  }

  /** The JSON body of PUT /users/update, the four inputs as typed. */
  datatype AccountUpdate = AccountUpdate(currentUserName: string, currentPass: string, newUserName: string, newPass: string)

  class Page {
    var userId: string
    var userName: string
    /** The text of `#welcomeName` and `#currentUserLabel`. */
    var welcome: string
    var tasks: seq<Task>
    var filterKey: string
    var search: string
    var sortKey: string
    var editing: Option<Task>
    var rows: seq<Row>
    var notice: string

    constructor (storedId: string, storedName: string)
      ensures userId == storedId && userName == storedName && welcome == Welcome(storedName, storedId)
      ensures tasks == [] && filterKey == "all" && search == "" && sortKey == "newest"
      ensures editing == None && rows == [] && notice == ""
    {
      userId := storedId;
      userName := storedName;
      welcome := Welcome(storedName, storedId);
      tasks := [];
      filterKey := "all";
      search := "";
      sortKey := "newest";
      editing := None;
      rows := [];
      notice := "";
    }

    /**
     * The update form: the four inputs are sent untrimmed.  When the server
     * accepts (`ok`), the new user name replaces the stored one and both
     * labels show it as it is, even when empty.
     */
    method UpdateAccount(currentUserName: string, currentPass: string, newUserName: string, newPass: string, ok: bool)
      returns (body: AccountUpdate)
      modifies this
      ensures body == AccountUpdate(currentUserName, currentPass, newUserName, newPass)
      ensures ok ==> userName == newUserName && welcome == newUserName
      ensures !ok ==> userName == old(userName) && welcome == old(welcome)
      ensures userId == old(userId) && tasks == old(tasks) && rows == old(rows)
      ensures filterKey == old(filterKey) && search == old(search) && sortKey == old(sortKey)
      ensures editing == old(editing) && notice == old(notice)
    {
      body := AccountUpdate(currentUserName, currentPass, newUserName, newPass);
      if ok {
        userName := newUserName;
        welcome := userName;
      }
    }

    /** `renderTasks`: the notice for an empty selection, otherwise the rows and an empty notice. */
    method Render()
      modifies this
      ensures tasks == old(tasks) && filterKey == old(filterKey) && search == old(search)
      ensures sortKey == old(sortKey) && editing == old(editing) && welcome == old(welcome)
      ensures userId == old(userId) && userName == old(userName)
      ensures rows == PageRows(tasks, filterKey, search, sortKey)
      ensures notice == if rows == [] then EmptyNotice else ""
    {
      var sorted := Visible(tasks, filterKey, search, sortKey);
      assert PageRows(tasks, filterKey, search, sortKey) == RowsAsWritten(sorted);
      if |sorted| == 0 {
        assert RowsAsWritten(sorted) == [];
        rows := [];
        notice := EmptyNotice;
      } else {
        rows := BuildRows(sorted);
        assert rows != [] by { assert |rows| == |sorted|; }
        notice := "";
      }
    }

    method Loaded(ts: seq<Task>)
      modifies this
      ensures tasks == ts && rows == PageRows(ts, filterKey, search, sortKey) && notice == ""
      ensures filterKey == old(filterKey) && search == old(search) && sortKey == old(sortKey) && editing == old(editing)
      ensures userId == old(userId) && userName == old(userName) && welcome == old(welcome)
    {
      tasks := ts;
      Render();
      notice := "";
    }

    /** A filter button stores `btn.dataset.filter` as it is; a button without one matches nothing. */
    method ChooseFilter(dataFilter: string)
      modifies this
      ensures filterKey == dataFilter
      ensures tasks == old(tasks) && search == old(search) && sortKey == old(sortKey)
      ensures rows == PageRows(tasks, filterKey, search, sortKey)
      ensures editing == old(editing) && userId == old(userId) && userName == old(userName) && welcome == old(welcome)
      ensures notice == if rows == [] then EmptyNotice else ""
    {
      filterKey := dataFilter;
      Render();
    }

    method Search(input: string)
      modifies this
      ensures search == Trim(input)
      ensures tasks == old(tasks) && filterKey == old(filterKey) && sortKey == old(sortKey)
      ensures rows == PageRows(tasks, filterKey, search, sortKey)
      ensures editing == old(editing) && userId == old(userId) && userName == old(userName) && welcome == old(welcome)
      ensures notice == if rows == [] then EmptyNotice else ""
    {
      search := Trim(input);
      Render();
    }

    method ClearSearch()
      modifies this
      ensures search == ""
      ensures tasks == old(tasks) && filterKey == old(filterKey) && sortKey == old(sortKey)
      ensures rows == PageRows(tasks, filterKey, "", sortKey)
      ensures editing == old(editing) && userId == old(userId) && userName == old(userName) && welcome == old(welcome)
      ensures notice == if rows == [] then EmptyNotice else ""
    {
      search := "";
      Render();
    }

    /** The sort select stores its value as it is; an unknown value sorts newest first. */
    method ChooseSort(value: string)
      modifies this
      ensures sortKey == value
      ensures tasks == old(tasks) && filterKey == old(filterKey) && search == old(search)
      ensures rows == PageRows(tasks, filterKey, search, sortKey)
      ensures editing == old(editing) && userId == old(userId) && userName == old(userName) && welcome == old(welcome)
      ensures notice == if rows == [] then EmptyNotice else ""
    {
      sortKey := value;
      Render();
    }

    method StartEdit(t: Task) returns (title: string, description: string)
      modifies this
      ensures editing == Some(t)
      ensures Parts(title, description) == SplitText(t.text)
      ensures tasks == old(tasks) && rows == old(rows) && notice == old(notice)
      ensures filterKey == old(filterKey) && search == old(search) && sortKey == old(sortKey)
      ensures userId == old(userId) && userName == old(userName) && welcome == old(welcome)
    {
      editing := Some(t);
      var p := SplitText(t.text);
      title, description := p.title, p.description;
    }

    method CancelEdit()
      modifies this
      ensures editing == None
      ensures tasks == old(tasks) && rows == old(rows) && notice == old(notice)
      ensures filterKey == old(filterKey) && search == old(search) && sortKey == old(sortKey)
      ensures userId == old(userId) && userName == old(userName) && welcome == old(welcome)
    {
      editing := None;
    }

    method SubmitEdit(titleInput: string, descInput: string, saved: bool) returns (put: Option<(int, TaskUpdate)>)
      modifies this
      ensures old(editing).None? ==> put.None?
      ensures old(editing).Some? ==>
        put == match EditBody(old(editing).value, titleInput, descInput)
               case None => None
               case Some(u) => Some((old(editing).value.id, u))
      ensures editing == if put.Some? && saved then None else old(editing)
      ensures tasks == old(tasks) && rows == old(rows) && notice == old(notice)
      ensures filterKey == old(filterKey) && search == old(search) && sortKey == old(sortKey)
      ensures userId == old(userId) && userName == old(userName) && welcome == old(welcome)
    {
      put := None;
      var current := editing;
      if current.None? {
        return;
      }
      match EditBody(current.value, titleInput, descInput)
      case None =>
      case Some(u) =>
        put := Some((current.value.id, u));
        if saved {
          editing := None;
        }
    }
  }

  /** A filter button without `data-filter` empties the table, where the task page would show everything. */
  lemma MissingFilterShowsNothing(ts: seq<Task>, search: string, sortKey: string)
    ensures PageRows(ts, "", search, sortKey) == []
  {
    var f := FilterTasks(ts, FilterOf(""), search);
    assert forall i :: 0 <= i < |f| ==> f[i] in f;
  }
}
