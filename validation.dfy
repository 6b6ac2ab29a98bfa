/**
 * The task record and the request-body validator of the backend
 * (mapTaskFromBody and sanitizeOptionalText in packages/backend/src/app.js).
 * A JSON request body is a map from field name to value; a key that is not in
 * the map is a field the client did not send.
 */
module Validation {
  import opened Wrappers
  import opened Text

  /** The JSON values the validator tells apart: null, a string, and
      anything else (number, boolean, array, object). */
  datatype Json = Null | Str(s: string) | Other

  type Body = map<string, Json>

  datatype Status = Active | Done

  function StatusName(s: Status): string {
    match s
    case Active => "active"
    case Done => "done"
  }

  /** Membership in the set of valid statuses, {"active", "done"}. */
  function ParseStatus(name: string): (r: Option<Status>)
    ensures r.Some? ==> StatusName(r.value) == name
    ensures r.None? ==> name != "active" && name != "done"
  {
    if name == "active" then Some(Active)
    else if name == "done" then Some(Done)
    else None
  }

  lemma StatusNameRoundTrip(s: Status)
    ensures ParseStatus(StatusName(s)) == Some(s)
  {
  }

  /** The status a JSON value denotes: only the strings "active" and "done"
      are one (a Set lookup in JavaScript matches no other value). */
  function StatusOf(v: Option<Json>): (r: Option<Status>)
    ensures r.Some? <==> v.Some? && v.value.Str? && (v.value.s == "active" || v.value.s == "done")
    ensures r.Some? ==> v == Some(Str(StatusName(r.value)))
  {
    if v.Some? && v.value.Str? then ParseStatus(v.value.s) else None
  }

  /** The five fields a client may set. */
  datatype TaskFields = TaskFields(
    title: string,
    description: Option<string>,
    dueDate: Option<string>,
    notes: Option<string>,
    status: Status)

  /** A stored task: the client's fields plus the id and the creation time the
      store assigns. */
  datatype Task = Task(
    id: int,
    title: string,
    description: Option<string>,
    dueDate: Option<string>,
    notes: Option<string>,
    status: Status,
    createdAt: int)

  const TitleRequired := "Task title is required"
  const DueDateInvalid := "Due date must be a string in YYYY-MM-DD format or null"
  const StatusInvalid := "Status must be active or done"

  function Field(body: Body, key: string): Option<Json> {
    if key in body then Some(body[key]) else None
  }

  /** sanitizeOptionalText: a string loses its surrounding whitespace (and
      may become ""); an absent value, null or a non-string becomes null. */
  function SanitizeOptionalText(v: Option<Json>): (r: Option<string>)
    ensures r.Some? <==> v.Some? && v.value.Str?
    ensures r.Some? ==> r.value == Trim(v.value.s) && Trim(r.value) == r.value
    ensures r.Some? ==> (r.value == [] <==> AllWhiteSpace(v.value.s))
  {
    match v
    case Some(Str(s)) => TrimIdempotent(s); Some(Trim(s))
    case _ => None
  }

  predicate TitleValid(body: Body) {
    "title" in body && body["title"].Str? && Trim(body["title"].s) != []
  }

  predicate DueDateValid(body: Body) {
    "dueDate" !in body || !body["dueDate"].Other?
  }

  predicate StatusValid(body: Body) {
    "status" !in body || StatusOf(Some(body["status"])).Some?
  }

  /** The dueDate rule: null, the empty string and an absent field become
      null; any other string is trimmed (a blank one therefore becomes ""). */
  function DueDateOf(v: Option<Json>): (r: Option<string>)
    ensures r.None? <==> v.None? || v.value.Null? || v.value == Str("") || v.value.Other?
    ensures r.Some? ==> v.Some? && v.value.Str? && r.value == Trim(v.value.s)
  {
    match v
    case Some(Str(s)) => if s == "" then None else Some(Trim(s))
    case _ => None
  }

  /** mapTaskFromBody in full mode: the title is checked first, then the due
      date, then the status; the first failure is the error. */
  function MapTaskFromBody(body: Body): (r: Result<TaskFields, string>)
    // the title error comes first, whatever else the body holds
    ensures !TitleValid(body) <==> r == Err(TitleRequired)
    ensures TitleValid(body) && !DueDateValid(body) ==> r == Err(DueDateInvalid)
    ensures TitleValid(body) && DueDateValid(body) && !StatusValid(body) ==> r == Err(StatusInvalid)
    ensures r.Ok? <==> TitleValid(body) && DueDateValid(body) && StatusValid(body)
    // the stored title is the trimmed, non-empty title
    ensures r.Ok? ==> r.value.title == Trim(body["title"].s)
    ensures r.Ok? ==> r.value.title != [] && Trim(r.value.title) == r.value.title
    ensures r.Ok? ==> r.value.description == SanitizeOptionalText(Field(body, "description"))
    ensures r.Ok? ==> r.value.notes == SanitizeOptionalText(Field(body, "notes"))
    ensures r.Ok? ==> r.value.dueDate == DueDateOf(Field(body, "dueDate"))
    // an absent status defaults to active
    ensures r.Ok? ==> r.value.status == (if "status" in body then StatusOf(Some(body["status"])).value else Active)
  {
    if !TitleValid(body) then Err(TitleRequired)
    else
      var title := Trim(body["title"].s);
      TrimIdempotent(body["title"].s);
      var description := SanitizeOptionalText(Field(body, "description"));
      if !DueDateValid(body) then Err(DueDateInvalid)
      else
        var dueDate := DueDateOf(Field(body, "dueDate"));
        var notes := SanitizeOptionalText(Field(body, "notes"));
        if !StatusValid(body) then Err(StatusInvalid)
        else
          var status := if "status" in body then StatusOf(Some(body["status"])).value else Active;
          Ok(TaskFields(title, description, dueDate, notes, status))
  }

  /** A body holding only a usable title gets null optional fields and the
      active status. */
  lemma AbsentFieldsDefault(title: string)
    requires Trim(title) != []
    ensures MapTaskFromBody(map["title" := Str(title)])
         == Ok(TaskFields(Trim(title), None, None, None, Active))
  {
    var body := map["title" := Str(title)];
    assert "description" !in body && "dueDate" !in body && "notes" !in body && "status" !in body;
    assert TitleValid(body) && DueDateValid(body) && StatusValid(body);
    var r := MapTaskFromBody(body);
    assert r.value.description == None && r.value.dueDate == None && r.value.notes == None;
    assert r.value.status == Active;
  }

  /** A non-string description or notes value is dropped to null rather than
      rejected. */
  lemma NonStringTextBecomesNull(body: Body)
    requires TitleValid(body) && DueDateValid(body) && StatusValid(body)
    requires "description" in body && !body["description"].Str?
    requires "notes" in body && !body["notes"].Str?
    ensures MapTaskFromBody(body).Ok?
    ensures MapTaskFromBody(body).value.description == None
    ensures MapTaskFromBody(body).value.notes == None
  {
  }

  /** An empty description stays "" (only a missing or non-string one becomes
      null). */
  lemma EmptyDescriptionKept(body: Body)
    requires TitleValid(body) && DueDateValid(body) && StatusValid(body)
    ensures MapTaskFromBody(body["description" := Str("")]).value.description == Some("")
  {
    var b := body["description" := Str("")];
    assert b["title"] == body["title"];
    assert "dueDate" in b ==> b["dueDate"] == body["dueDate"];
    assert "status" in b ==> b["status"] == body["status"];
    assert TitleValid(b) && DueDateValid(b) && StatusValid(b);
    assert Field(b, "description") == Some(Str(""));
    var r := MapTaskFromBody(b);
    assert r.value.description == SanitizeOptionalText(Some(Str("")));
    TrimOfBlank("");
  }

  lemma TrimOfBlank(blank: string)
    requires AllWhiteSpace(blank)
    ensures Trim(blank) == ""
    ensures SanitizeOptionalText(Some(Str(blank))) == Some("")
  {
  }

  /** A due date that is blank but not empty is truthy, so it is trimmed to
      ""; the empty due date becomes null. */
  lemma BlankDueDate(body: Body, blank: string)
    requires TitleValid(body) && StatusValid(body)
    requires AllWhiteSpace(blank)
    ensures blank != "" ==> MapTaskFromBody(body["dueDate" := Str(blank)]).value.dueDate == Some("")
    ensures blank == "" ==> MapTaskFromBody(body["dueDate" := Str(blank)]).value.dueDate == None
  {
    var b := body["dueDate" := Str(blank)];
    assert b["title"] == body["title"];
    assert "status" in b ==> b["status"] == body["status"];
    assert TitleValid(b) && DueDateValid(b) && StatusValid(b);
    assert Field(b, "dueDate") == Some(Str(blank));
    var r := MapTaskFromBody(b);
    assert r.value.dueDate == DueDateOf(Some(Str(blank)));
    TrimOfBlank(blank);
  }
}
