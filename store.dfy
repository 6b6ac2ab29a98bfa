/**
 * The task table of the backend and its six /api/tasks route handlers
 * (packages/backend/src/app.js), as a class over a map from id to task.
 * `nextId` is the AUTOINCREMENT counter of the id column, `clock` the
 * CURRENT_TIMESTAMP reading that stamps created_at, and the ghost field
 * `issued` records every id the counter has ever handed out.
 */
module Store {
  import opened Wrappers
  import opened Text
  import opened IdParsing
  import opened Validation
  import opened Ordering

  datatype ResponseBody =
    | TaskRecord(task: Task)
    | TaskList(tasks: seq<Task>)
    | Deletion(message: string, id: int)
    | ErrorMessage(error: string)

  /** An HTTP status code and the JSON payload sent with it. */
  datatype Response = Response(code: int, body: ResponseBody)

  const InvalidId := "Valid task ID is required"
  const NotFound := "Task not found"
  const DirectionInvalid := "Direction must be asc or desc"
  const DeletedMessage := "Task deleted successfully"

  function BadRequest(message: string): Response {
    Response(400, ErrorMessage(message))
  }

  /** The row an INSERT creates from validated fields. */
  function NewTask(id: int, f: TaskFields, createdAt: int): Task {
    Task(id, f.title, f.description, f.dueDate, f.notes, f.status, createdAt)
  }

  /** The row a full UPDATE leaves: the five client fields replaced, id and
      created_at kept. */
  function Replace(t: Task, f: TaskFields): (r: Task)
    ensures r.id == t.id && r.createdAt == t.createdAt
    ensures TaskFields(r.title, r.description, r.dueDate, r.notes, r.status) == f
  {
    t.(title := f.title, description := f.description, dueDate := f.dueDate,
       notes := f.notes, status := f.status)
  }

  /** The prelude of every id route: Number.parseInt of the path segment,
      400 when that is NaN, then 404 when no row has the id. */
  function ResolveId(tasks: map<int, Task>, idText: string): (r: Result<int, Response>)
    ensures ParseInt(idText).None? <==> r == Err(BadRequest(InvalidId))
    ensures ParseInt(idText).Some? && ParseInt(idText).value !in tasks <==> r == Err(Response(404, ErrorMessage(NotFound)))
    ensures r.Ok? <==> ParseInt(idText).Some? && ParseInt(idText).value in tasks
    ensures r.Ok? ==> r.value == ParseInt(idText).value
  {
    match ParseInt(idText)
    case None => Err(BadRequest(InvalidId))
    case Some(id) => if id in tasks then Ok(id) else Err(Response(404, ErrorMessage(NotFound)))
  }

  /** The validated query of GET /api/tasks: an optional status filter and
      an ordering. */
  datatype ListQuery = ListQuery(filter: Option<Status>, order: OrderSpec)

  /** GET /api/tasks query checks: the status filter first, then the
      direction; an empty parameter counts as absent, and an unknown sort
      field is not an error. */
  function ParseListQuery(status: Option<string>, sort: Option<string>, direction: Option<string>)
    : (r: Result<ListQuery, string>)
    ensures Present(status) && ParseStatus(status.value).None? ==> r == Err(StatusInvalid)
    ensures !(Present(status) && ParseStatus(status.value).None?)
            && Present(direction) && direction.value != "asc" && direction.value != "desc"
            ==> r == Err(DirectionInvalid)
    ensures r.Ok? <==> !(Present(status) && ParseStatus(status.value).None?)
                       && !(Present(direction) && direction.value != "asc" && direction.value != "desc")
    ensures r.Ok? ==> (r.value.filter.Some? <==> Present(status))
    ensures r.Ok? && r.value.filter.Some? ==> StatusName(r.value.filter.value) == status.value
    ensures r.Ok? ==> r.value.order == BuildOrderBy(sort, if Present(direction) then direction.value else "desc")
  {
    if Present(status) && ParseStatus(status.value).None? then Err(StatusInvalid)
    else if Present(direction) && direction.value != "asc" && direction.value != "desc" then Err(DirectionInvalid)
    else
      var filter := if Present(status) then ParseStatus(status.value) else None;
      Ok(ListQuery(filter, BuildOrderBy(sort, if Present(direction) then direction.value else "desc")))
  }

  predicate Matches(filter: Option<Status>, t: Task) {
    filter.None? || t.status == filter.value
  }

  /** The rows a WHERE status = ? clause (or no clause) selects. */
  function Selection(tasks: map<int, Task>, filter: Option<Status>): set<Task> {
    set id | id in tasks && Matches(filter, tasks[id]) :: tasks[id]
  }

  /** The selected rows whose ids are below `bound`. */
  ghost function Scanned(m: map<int, Task>, bound: int, filter: Option<Status>): set<Task> {
    set id | id in m && id < bound && Matches(filter, m[id]) :: m[id]
  }

  lemma ScannedAll(m: map<int, Task>, bound: int, filter: Option<Status>)
    requires forall id :: id in m ==> id < bound
    ensures Scanned(m, bound, filter) == Selection(m, filter)
  {
  }

  /** Scanning one more id adds its row, which was not there yet, when it is
      selected. */
  lemma ScanOne(m: map<int, Task>, bound: int, filter: Option<Status>)
    requires forall k :: k in m ==> m[k].id == k
    ensures multiset(Scanned(m, bound + 1, filter)) ==
            multiset(Scanned(m, bound, filter))
            + (if bound in m && Matches(filter, m[bound]) then multiset{m[bound]} else multiset{})
  {
    var before, after := Scanned(m, bound, filter), Scanned(m, bound + 1, filter);
    if bound in m && Matches(filter, m[bound]) {
      assert m[bound] !in before;
      assert after == before + {m[bound]};
    } else {
      assert after == before;
    }
  }

  /** A stored row has a non-empty trimmed title and is stamped no later than
      the clock. "Trimmed" is stated on the edge characters; by the last
      ensures of Trim it is the same as Trim(title) == title, which
      WellFormedTitleTrimmed records. */
  predicate WellFormed(t: Task, clock: int) {
    && t.title != [] && !IsWhiteSpace(t.title[0]) && !IsWhiteSpace(t.title[|t.title| - 1])
    && t.createdAt <= clock
  }

  lemma WellFormedTitleTrimmed(t: Task, clock: int)
    ensures WellFormed(t, clock) <==> t.title != [] && Trim(t.title) == t.title && t.createdAt <= clock
  {
  }

  /** The seed rows inserted when the database is created. */
  function SeedTasks(): map<int, Task> {
    map[
      1 := Task(1, "Plan sprint tasks", Some("Prepare task breakdown for the week"),
                Some("2026-02-22"), Some("Align with team goals"), Active, 0),
      2 := Task(2, "Review pull request", Some("Check coding guidelines adherence"),
                Some("2026-02-21"), Some(""), Done, 0)]
  }

  lemma SeedTasksWellFormed()
    ensures SeedTasks().Keys == {1, 2}
    ensures forall id :: id in SeedTasks() ==> SeedTasks()[id].id == id && WellFormed(SeedTasks()[id], 0)
  {
    assert WellFormed(SeedTasks()[1], 0);
    assert WellFormed(SeedTasks()[2], 0);
  }

  class TaskStore {
    var tasks: map<int, Task>
    var nextId: int
    var clock: int
    ghost var issued: set<int>

    /** Every row is stored under its own id, that id was issued by the
        counter, titles are non-empty and trimmed, and no row is stamped
        later than the clock. */
    ghost predicate Valid()
      reads this
    {
      && (forall id :: id in tasks ==> id in issued && tasks[id].id == id && WellFormed(tasks[id], clock))
      && (forall id :: id in issued ==> 1 <= id < nextId)
      && 1 <= nextId
    }

    /** The database as the module creates it: the two seed tasks, ids 1
        and 2. */
    constructor ()
      ensures Valid()
      ensures tasks == SeedTasks() && issued == {1, 2} && nextId == 3 && clock == 0
    {
      SeedTasksWellFormed();
      tasks := SeedTasks();
      issued := {1, 2};
      nextId := 3;
      clock := 0;
    }

    /** GET /api/tasks/:id */
    method Get(idText: string) returns (r: Response)
      requires Valid()
      ensures ResolveId(tasks, idText).Err? ==> r == ResolveId(tasks, idText).error
      ensures ResolveId(tasks, idText).Ok? ==>
                var id := ParseInt(idText).value;
                r == Response(200, TaskRecord(tasks[id])) && r.body.task.id == id
    {
      var resolved := ResolveId(tasks, idText);
      if resolved.Err? {
        return resolved.error;
      }
      r := Response(200, TaskRecord(tasks[resolved.value]));
    }

    /** POST /api/tasks */
    method Create(body: Body, tick: nat) returns (r: Response)
      requires Valid()
      modifies this
      ensures Valid()
      ensures MapTaskFromBody(body).Err? ==>
                && r == BadRequest(MapTaskFromBody(body).error)
                && tasks == old(tasks) && issued == old(issued)
                && nextId == old(nextId) && clock == old(clock)
      ensures MapTaskFromBody(body).Ok? ==>
                && r.code == 201 && r.body.TaskRecord?
                && var t := r.body.task;
                && t.id !in old(issued) && issued == old(issued) + {t.id}
                && (forall i :: i in old(issued) ==> i < t.id)
                && tasks == old(tasks)[t.id := t]
                && clock == old(clock) + tick
                && t == NewTask(t.id, MapTaskFromBody(body).value, clock)
    {
      var mapped := MapTaskFromBody(body);
      if mapped.Err? {
        return BadRequest(mapped.error);
      }
      var id := nextId;
      clock := clock + tick;
      var t := NewTask(id, mapped.value, clock);
      tasks := tasks[id := t];
      issued := issued + {id};
      nextId := nextId + 1;
      r := Response(201, TaskRecord(t));
    }

    /** PUT /api/tasks/:id: the id is checked (400, then 404) before the body
        is validated. */
    method Update(idText: string, body: Body) returns (r: Response)
      requires Valid()
      modifies this
      ensures Valid()
      ensures issued == old(issued) && nextId == old(nextId) && clock == old(clock)
      ensures ResolveId(old(tasks), idText).Err? ==>
                r == ResolveId(old(tasks), idText).error && tasks == old(tasks)
      ensures ResolveId(old(tasks), idText).Ok? && MapTaskFromBody(body).Err? ==>
                r == BadRequest(MapTaskFromBody(body).error) && tasks == old(tasks)
      ensures ResolveId(old(tasks), idText).Ok? && MapTaskFromBody(body).Ok? ==>
                var id := ParseInt(idText).value;
                && tasks == old(tasks)[id := Replace(old(tasks)[id], MapTaskFromBody(body).value)]
                && r == Response(200, TaskRecord(tasks[id]))
    {
      var resolved := ResolveId(tasks, idText);
      if resolved.Err? {
        return resolved.error;
      }
      var mapped := MapTaskFromBody(body);
      if mapped.Err? {
        return BadRequest(mapped.error);
      }
      var id := resolved.value;
      tasks := tasks[id := Replace(tasks[id], mapped.value)];
      r := Response(200, TaskRecord(tasks[id]));
    }

    /** PATCH /api/tasks/:id/status: only the status field changes. */
    method PatchStatus(idText: string, body: Body) returns (r: Response)
      requires Valid()
      modifies this
      ensures Valid()
      ensures issued == old(issued) && nextId == old(nextId) && clock == old(clock)
      ensures ResolveId(old(tasks), idText).Err? ==>
                r == ResolveId(old(tasks), idText).error && tasks == old(tasks)
      ensures ResolveId(old(tasks), idText).Ok? && StatusOf(Field(body, "status")).None? ==>
                r == BadRequest(StatusInvalid) && tasks == old(tasks)
      ensures ResolveId(old(tasks), idText).Ok? && StatusOf(Field(body, "status")).Some? ==>
                var id := ParseInt(idText).value;
                && tasks == old(tasks)[id := old(tasks)[id].(status := StatusOf(Field(body, "status")).value)]
                && r == Response(200, TaskRecord(tasks[id]))
    {
      var resolved := ResolveId(tasks, idText);
      if resolved.Err? {
        return resolved.error;
      }
      var status := StatusOf(Field(body, "status"));
      if status.None? {
        return BadRequest(StatusInvalid);
      }
      var id := resolved.value;
      tasks := tasks[id := tasks[id].(status := status.value)];
      r := Response(200, TaskRecord(tasks[id]));
    }

    /** DELETE /api/tasks/:id: removes that row only, and answers with its id. */
    method Delete(idText: string) returns (r: Response)
      requires Valid()
      modifies this
      ensures Valid()
      ensures issued == old(issued) && nextId == old(nextId) && clock == old(clock)
      ensures ResolveId(old(tasks), idText).Err? ==>
                r == ResolveId(old(tasks), idText).error && tasks == old(tasks)
      ensures ResolveId(old(tasks), idText).Ok? ==>
                var id := ParseInt(idText).value;
                tasks == old(tasks) - {id} && r == Response(200, Deletion(DeletedMessage, id))
    {
      var resolved := ResolveId(tasks, idText);
      if resolved.Err? {
        return resolved.error;
      }
      var id := resolved.value;
      tasks := tasks - {id};
      r := Response(200, Deletion(DeletedMessage, id));
    }

    /** GET /api/tasks: the selected rows, each exactly once, with every
        adjacent pair in the requested order. */
    method List(status: Option<string>, sort: Option<string>, direction: Option<string>) returns (r: Response)
      requires Valid()
      ensures ParseListQuery(status, sort, direction).Err? ==>
                r == BadRequest(ParseListQuery(status, sort, direction).error)
      ensures ParseListQuery(status, sort, direction).Ok? ==>
                var q := ParseListQuery(status, sort, direction).value;
                && r.code == 200 && r.body.TaskList?
                && multiset(r.body.tasks) == multiset(Selection(tasks, q.filter))
                && SortedBy(q.order, r.body.tasks)
    {
      var query := ParseListQuery(status, sort, direction);
      if query.Err? {
        return BadRequest(query.error);
      }
      var q := query.value;
      // a table scan in rowid order: every id below the counter
      var listed: seq<Task> := [];
      var next := 1;
      while next < nextId
        invariant 1 <= next <= nextId
        invariant SortedBy(q.order, listed)
        invariant multiset(listed) == multiset(Scanned(tasks, next, q.filter))
      {
        ScanOne(tasks, next, q.filter);
        if next in tasks && Matches(q.filter, tasks[next]) {
          listed := Insert(q.order, tasks[next], listed);
        }
        next := next + 1;
      }
      ScannedAll(tasks, nextId, q.filter);
      r := Response(200, TaskList(listed));
    }
  }
}
