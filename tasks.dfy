/** The task handlers. Every one of them runs for an authenticated caller
    whose `userId` it receives; the queries are functions of the table, the
    handlers that write are methods of `TaskStore`, which owns the table. */
module Tasks {
  import opened Common
  import opened Validation
  import opened TaskTable
  import opened TaskList

  const TaskNotFound := Failure(404, "Task not found")
  const InvalidInput := Failure(400, "Invalid input")
  const ServerError := Failure(500, "Server error")

  // ---------------------------------------------------------------------
  // getTask

  /** `GET /tasks/:id`: the caller's row with that id, or 404. */
  function GetTask(rows: seq<Task>, userId: UserId, id: TaskId): (r: Response<Task>)
    ensures r.Ok? <==> exists k :: 0 <= k < |rows| && Selects(rows[k], userId, id)
    ensures r.Ok? ==> r.code == 200 && r.body in rows && r.body.id == id && r.body.userId == userId
    ensures r.Err? ==> r.failure == TaskNotFound
  {
    match FindOwned(rows, userId, id)
    case None => Err(TaskNotFound)
    case Some(i) => Ok(200, rows[i])
  }

  /** What `getTask` answers a caller depends only on that caller's rows: a
      task of another user looks exactly like a missing one. */
  lemma GetTaskIsolated(rows: seq<Task>, rows': seq<Task>, userId: UserId, id: TaskId)
    requires OwnedBy(rows, userId) == OwnedBy(rows', userId)
    ensures GetTask(rows, userId, id) == GetTask(rows', userId, id)
  {
    FindOwnedSeesOnlyOwner(rows, userId, id);
    FindOwnedSeesOnlyOwner(rows', userId, id);
  }

  // ---------------------------------------------------------------------
  // getTasks

  /** The query string of `GET /tasks`, page and limit already numbers. */
  datatype ListQuery = ListQuery(page: Option<nat>, limit: Option<nat>,
                                 status: Option<string>, search: Option<string>)

  /** The JSON body of a successful list. */
  datatype TaskPage = TaskPage(tasks: seq<Task>, total: nat, page: nat, totalPages: nat)

  /** `page = 1` when absent. */
  function PageOf(q: ListQuery): (r: nat)
    ensures q.page.None? ==> r == 1
    ensures q.page.Some? ==> r == q.page.value
  {
    match q.page
    case None => 1
    case Some(p) => p
  }

  /** `limit = 10` when absent. */
  function LimitOf(q: ListQuery): (r: nat)
    ensures q.limit.None? ==> r == 10
    ensures q.limit.Some? ==> r == q.limit.value
  {
    match q.limit
    case None => 10
    case Some(l) => l
  }

  /** `skip = (page - 1) * limit`: the rows on the pages before `page`. */
  function Skip(q: ListQuery): (r: nat)
    requires PageOf(q) >= 1
    ensures PageOf(q) == 1 ==> r == 0
    ensures PageOf(q) > 1 ==> r >= LimitOf(q)
  {
    (PageOf(q) - 1) * LimitOf(q)
  }

  /** Each page starts `limit` rows after the one before it. */
  lemma SkipNextPage(q: ListQuery)
    requires PageOf(q) >= 1
    ensures Skip(q.(page := Some(PageOf(q) + 1))) == Skip(q) + LimitOf(q)
  {
    var next := q.(page := Some(PageOf(q) + 1));
    assert PageOf(next) - 1 == PageOf(q) && LimitOf(next) == LimitOf(q);
    assert PageOf(q) * LimitOf(q) == (PageOf(q) - 1) * LimitOf(q) + LimitOf(q);
  }

  /** `if (search)`: an empty search adds no condition. */
  function SearchOf(q: ListQuery): (r: Option<string>)
    ensures r.Some? <==> q.search.Some? && q.search.value != ""
    ensures r.Some? ==> r == q.search
  {
    match q.search
    case Some(s) => if s == "" then None else Some(s)
    case None => None
  }

  /** `if (status)` sets `where.status`; a name outside the enumeration makes
      the store reject the query. Outer None: rejected; inner None: no
      status condition. */
  function StatusOf(q: ListQuery): (r: Option<Option<Status>>)
    ensures r.None? <==> q.status.Some? && q.status.value != "" && ParseStatus(q.status.value).None?
    ensures r == Some(None) <==> q.status.None? || q.status == Some("")
    ensures r.Some? && r.value.Some? ==> q.status == Some(StatusName(r.value.value))
  {
    match q.status
    case None => Some(None)
    case Some(s) =>
      if s == "" then Some(None)
      else
        match ParseStatus(s)
        case Some(st) => Some(Some(st))
        case None => None
  }

  /** The `where` object `getTasks` builds for the caller. */
  function ListCriteria(userId: UserId, q: ListQuery): (c: Criteria)
    requires StatusOf(q).Some?
    ensures c.userId == userId
    ensures c.status.Some? <==> q.status.Some? && q.status.value != ""
    ensures c.status.Some? ==> q.status == Some(StatusName(c.status.value))
    ensures c.search.Some? <==> q.search.Some? && q.search.value != ""
    ensures c.search.Some? ==> c.search == q.search
  {
    Criteria(userId, StatusOf(q).value, SearchOf(q))
  }

  /** `GET /tasks`: the caller's matching rows, newest first, page `page`
      of `limit` rows, with the match count and the page count. */
  function GetTasks(rows: seq<Task>, userId: UserId, q: ListQuery): (r: Response<TaskPage>)
    requires PageOf(q) >= 1 && LimitOf(q) >= 1
    ensures r.Err? <==> StatusOf(q).None?
    ensures r.Err? ==> r.failure == ServerError
    ensures r.Ok? ==> r.code == 200 && r.body.page == PageOf(q)
  {
    match StatusOf(q)
    case None => Err(ServerError)
    case Some(status) =>
      var matching := Filter(rows, ListCriteria(userId, q));
      Ok(200, TaskPage(Window(SortNewestFirst(matching), Skip(q), LimitOf(q)), |matching|,
                       PageOf(q), PageCount(|matching|, LimitOf(q))))
  }

  /** Every listed task belongs to the caller, has the requested status and
      contains the search text in any letter case. */
  lemma ListedTasksMatch(rows: seq<Task>, userId: UserId, q: ListQuery, t: Task)
    requires PageOf(q) >= 1 && LimitOf(q) >= 1
    requires GetTasks(rows, userId, q).Ok? && t in GetTasks(rows, userId, q).body.tasks
    ensures t in rows && t.userId == userId
    ensures q.status.Some? && q.status.value != "" ==> StatusName(t.status) == q.status.value
    ensures q.search.Some? ==> TitleMatches(t.title, q.search.value)
  {
    var c := ListCriteria(userId, q);
    var sorted := SortNewestFirst(Filter(rows, c));
    WindowOfSorted(sorted, Skip(q), LimitOf(q));
    assert t in multiset(sorted);
    assert Matches(t, c);
    if q.search == Some("") {
      ContainsEmpty(Lower(t.title));
    }
  }

  /** The page is the slice of the caller's matching rows, ordered newest
      first, that starts at offset `(page - 1) * limit` and holds `limit`
      rows, or fewer on the last page. */
  lemma ListPageWindow(rows: seq<Task>, userId: UserId, q: ListQuery)
    requires PageOf(q) >= 1 && LimitOf(q) >= 1 && StatusOf(q).Some?
    ensures GetTasks(rows, userId, q).Ok?
    ensures var sorted := SortNewestFirst(Filter(rows, ListCriteria(userId, q)));
            var tasks := GetTasks(rows, userId, q).body.tasks;
            var skip := Skip(q);
            && NewestFirst(tasks)
            && multiset(sorted) == multiset(Filter(rows, ListCriteria(userId, q)))
            && |tasks| <= LimitOf(q)
            && (skip < |sorted| ==> |tasks| == if skip + LimitOf(q) <= |sorted| then LimitOf(q) else |sorted| - skip)
            && (forall k :: 0 <= k < |tasks| ==> skip + k < |sorted| && tasks[k] == sorted[skip + k])
  {
    var sorted := SortNewestFirst(Filter(rows, ListCriteria(userId, q)));
    var skip := Skip(q);
    var tasks := GetTasks(rows, userId, q).body.tasks;
    assert tasks == Window(sorted, skip, LimitOf(q));
    WindowShape(sorted, skip, LimitOf(q));
    WindowOfSorted(sorted, skip, LimitOf(q));
  }

  /** `total` counts every matching row, and `totalPages` is the least
      number of `limit`-row pages that hold them all. */
  lemma ListTotals(rows: seq<Task>, userId: UserId, q: ListQuery)
    requires PageOf(q) >= 1 && LimitOf(q) >= 1 && StatusOf(q).Some?
    ensures GetTasks(rows, userId, q).Ok?
    ensures var p := GetTasks(rows, userId, q).body;
            && p.total == |Filter(rows, ListCriteria(userId, q))|
            && p.totalPages * LimitOf(q) >= p.total
            && (p.totalPages > 0 ==> (p.totalPages - 1) * LimitOf(q) < p.total)
  {
  }

  /** The list a caller gets depends only on that caller's rows. */
  lemma GetTasksIsolated(rows: seq<Task>, rows': seq<Task>, userId: UserId, q: ListQuery)
    requires PageOf(q) >= 1 && LimitOf(q) >= 1
    requires OwnedBy(rows, userId) == OwnedBy(rows', userId)
    ensures GetTasks(rows, userId, q) == GetTasks(rows', userId, q)
  {
    if StatusOf(q).Some? {
      var c := ListCriteria(userId, q);
      FilterSeesOnlyOwner(rows, c);
      FilterSeesOnlyOwner(rows', c);
    }
  }

  /** With the default page size, fifteen matching rows make two pages: ten
      rows on the first, five on the second. */
  lemma FifteenTasksPaging(rows: seq<Task>, userId: UserId)
    requires |OwnedBy(rows, userId)| == 15
    ensures var first := GetTasks(rows, userId, ListQuery(None, None, None, None));
            first.Ok? && |first.body.tasks| == 10 && first.body.total == 15 && first.body.totalPages == 2
    ensures var second := GetTasks(rows, userId, ListQuery(Some(2), None, None, None));
            second.Ok? && |second.body.tasks| == 5 && second.body.total == 15 && second.body.totalPages == 2
  {
    var c := ListCriteria(userId, ListQuery(None, None, None, None));
    FilterIsOwnedBy(rows, c);
    var sorted := SortNewestFirst(Filter(rows, c));
    WindowShape(sorted, 0, 10);
    WindowShape(sorted, 10, 10);
  }

  /** With neither status nor search, the filter keeps exactly the caller's
      rows. */
  lemma {:induction false} FilterIsOwnedBy(rows: seq<Task>, c: Criteria)
    requires c.status.None? && c.search.None?
    ensures Filter(rows, c) == OwnedBy(rows, c.userId)
    decreases |rows|
  {
    if rows != [] {
      FilterIsOwnedBy(rows[1..], c);
    }
  }

  // ---------------------------------------------------------------------
  // toggleTaskStatus and updateTask on one row

  /** The status a toggle stores: COMPLETED becomes PENDING, anything else
      becomes COMPLETED. */
  function Toggled(s: Status): (r: Status)
    ensures r == COMPLETED <==> s != COMPLETED
    ensures r == PENDING <==> s == COMPLETED
    ensures r != IN_PROGRESS
  {
    if s == COMPLETED then PENDING else COMPLETED
  }

  /** Two toggles restore a status exactly when it was not IN_PROGRESS: an
      IN_PROGRESS task comes back as PENDING. */
  lemma ToggleTwice(s: Status)
    ensures Toggled(Toggled(s)) == s <==> s != IN_PROGRESS
    ensures s == IN_PROGRESS ==> Toggled(Toggled(s)) == PENDING
  {
  }

  /** `update({ data })` with a validated partial body: the fields the body
      carries are overwritten, every other column is kept. */
  function ApplyPatch(t: Task, p: TaskPatch): (r: Task)
    ensures r.id == t.id && r.userId == t.userId && r.createdAt == t.createdAt
    ensures r.title == (if p.title.Some? then p.title.value else t.title)
    ensures r.description == (if p.description.Some? then p.description else t.description)
    ensures r.status == (if p.status.Some? then p.status.value else t.status)
  {
    Task(t.id, t.userId,
         match p.title case Some(x) => x case None => t.title,
         match p.description case Some(_) => p.description case None => t.description,
         match p.status case Some(x) => x case None => t.status,
         t.createdAt)
  }

  /** An empty patch changes nothing. */
  lemma EmptyPatchKeepsTask(t: Task)
    ensures ApplyPatch(t, TaskPatch(None, None, None)) == t
  {
  }

  // ---------------------------------------------------------------------
  // The table and its writing handlers

  /** The task table. Ids come from a counter, which stands for the store's
      generator of unique keys. */
  class TaskStore {
    var rows: seq<Task>
    var nextId: TaskId

    /** Ids are unique and every id in use was handed out already. */
    ghost predicate Valid()
      reads this
    {
      UniqueIds(rows) && forall k :: 0 <= k < |rows| ==> rows[k].id < nextId
    }

    /** An empty table. */
    constructor ()
      ensures Valid() && rows == []
    {
      rows := [];
      nextId := 0;
    }

    /** `POST /tasks`: a valid body becomes a new row owned by the caller,
        whatever owner the body names, with status PENDING unless the body
        gives one; an invalid body is a 400 and changes nothing. */
    method CreateTask(userId: UserId, body: TaskBody, now: nat) returns (r: Response<Task>)
      requires Valid()
      modifies this
      ensures Valid()
      ensures ParseTask(body).None? ==> r == Err(InvalidInput) && rows == old(rows)
      ensures ParseTask(body).Some? ==>
        var input := ParseTask(body).value;
        && r.Ok? && r.code == 201
        && r.body.userId == userId
        && r.body.title == input.title
        && r.body.description == input.description
        && r.body.status == (if input.status.Some? then input.status.value else PENDING)
        && r.body.createdAt == now
        && (forall k :: 0 <= k < |old(rows)| ==> old(rows)[k].id != r.body.id)
        && rows == old(rows) + [r.body]
      ensures forall other :: other != userId ==> OwnedBy(rows, other) == OwnedBy(old(rows), other)
    {
      match ParseTask(body)
      case None =>
        r := Err(InvalidInput);
      case Some(input) =>
        var status := match input.status case Some(s) => s case None => PENDING;
        var t := Task(nextId, userId, input.title, input.description, status, now);
        forall other | other != userId
          ensures OwnedBy(rows + [t], other) == OwnedBy(rows, other)
        {
          AppendKeepsOthers(rows, t, other);
        }
        rows := rows + [t];
        nextId := nextId + 1;
        r := Ok(201, t);
    }

    /** `PATCH /tasks/:id`: the body is validated first (400, nothing
        changes); then, if the caller owns no row with that id, 404 and
        nothing changes; otherwise exactly that row takes the fields the
        body carries. */
    method UpdateTask(userId: UserId, id: TaskId, body: TaskBody) returns (r: Response<Task>)
      requires Valid()
      modifies this
      ensures Valid()
      ensures ParseTaskPatch(body).None? ==> r == Err(InvalidInput) && rows == old(rows)
      ensures ParseTaskPatch(body).Some? && FindOwned(old(rows), userId, id).None? ==>
        r == Err(TaskNotFound) && rows == old(rows)
      ensures ParseTaskPatch(body).Some? && FindOwned(old(rows), userId, id).Some? ==>
        var i := FindOwned(old(rows), userId, id).value;
        r == Ok(200, ApplyPatch(old(rows)[i], ParseTaskPatch(body).value))
        && rows == old(rows)[i := r.body]
      ensures forall other :: other != userId ==> OwnedBy(rows, other) == OwnedBy(old(rows), other)
    {
      match ParseTaskPatch(body)
      case None =>
        r := Err(InvalidInput);
      case Some(patch) =>
        match FindOwned(rows, userId, id)
        case None =>
          r := Err(TaskNotFound);
        case Some(i) =>
          var t := ApplyPatch(rows[i], patch);
          ReplaceRow(i, t);
          r := Ok(200, t);
    }

    /** `DELETE /tasks/:id`: 404 and no change unless the caller owns a row
        with that id; otherwise that row is gone, the other rows stay in
        order, and no user can find the id any more. */
    method DeleteTask(userId: UserId, id: TaskId) returns (r: Response<string>)
      requires Valid()
      modifies this
      ensures Valid()
      ensures FindOwned(old(rows), userId, id).None? ==> r == Err(TaskNotFound) && rows == old(rows)
      ensures FindOwned(old(rows), userId, id).Some? ==>
        r == Ok(200, "Task deleted")
        && rows == RemoveAt(old(rows), FindOwned(old(rows), userId, id).value)
        && forall anyone :: GetTask(rows, anyone, id) == Err(TaskNotFound)
      ensures forall other :: other != userId ==> OwnedBy(rows, other) == OwnedBy(old(rows), other)
    {
      match FindOwned(rows, userId, id)
      case None =>
        r := Err(TaskNotFound);
      case Some(i) =>
        forall anyone
          ensures FindOwned(RemoveAt(rows, i), anyone, id).None?
        {
          RemovedIdIsGone(rows, i, anyone);
        }
        forall other | other != userId
          ensures OwnedBy(RemoveAt(rows, i), other) == OwnedBy(rows, other)
        {
          RemoveKeepsOthers(rows, i, other);
        }
        RemovedIdIsGone(rows, i, userId);
        rows := RemoveAt(rows, i);
        r := Ok(200, "Task deleted");
    }

    /** `PATCH /tasks/:id/toggle`: 404 and no change unless the caller owns
        a row with that id; otherwise only that row's status changes, to
        `Toggled` of the old one. */
    method ToggleTaskStatus(userId: UserId, id: TaskId) returns (r: Response<Task>)
      requires Valid()
      modifies this
      ensures Valid()
      ensures FindOwned(old(rows), userId, id).None? ==> r == Err(TaskNotFound) && rows == old(rows)
      ensures FindOwned(old(rows), userId, id).Some? ==>
        var i := FindOwned(old(rows), userId, id).value;
        r == Ok(200, old(rows)[i].(status := Toggled(old(rows)[i].status)))
        && rows == old(rows)[i := r.body]
      ensures forall other :: other != userId ==> OwnedBy(rows, other) == OwnedBy(old(rows), other)
    {
      match FindOwned(rows, userId, id)
      case None =>
        r := Err(TaskNotFound);
      case Some(i) =>
        var t := rows[i].(status := Toggled(rows[i].status));
        ReplaceRow(i, t);
        r := Ok(200, t);
    }

    /** `update({ where: { id } })` on the row the ownership check found:
        the row at `i` becomes `t`, which keeps its id and owner. */
    method ReplaceRow(i: nat, t: Task)
      requires Valid() && i < |rows| && t.id == rows[i].id && t.userId == rows[i].userId
      modifies this
      ensures Valid() && rows == old(rows)[i := t] && nextId == old(nextId)
      ensures forall other :: other != t.userId ==> OwnedBy(rows, other) == OwnedBy(old(rows), other)
    {
      forall other | other != t.userId
        ensures OwnedBy(rows[i := t], other) == OwnedBy(rows, other)
      {
        ReplaceKeepsOthers(rows, i, t, other);
      }
      rows := rows[i := t];
    }
  }
}
