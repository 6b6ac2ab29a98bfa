/**
 * The state transitions of the task view (packages/frontend/src/App.js) as
 * a reducer: each handler is a function from the current view state (and
 * the server's answer, where the handler awaits one) to the next state.
 */
module View {
  import opened Wrappers
  import opened Text
  import opened IdParsing
  import opened Validation
  import opened Ordering
  import Store

  datatype Tab = CreateTab | ActiveTab | DoneTab

  datatype SortField = TitleField | CreatedField | DueDateField

  datatype SortConfig = SortConfig(field: SortField, direction: Direction)

  /** The four inputs of the create/edit form. */
  datatype FormData = FormData(title: string, description: string, dueDate: string, notes: string)

  const EmptyForm := FormData("", "", "", "")

  datatype ViewState = ViewState(
    activeTab: Tab,
    sortConfig: SortConfig,
    editingTaskId: Option<int>,
    editingTaskStatus: Option<Status>,
    formData: FormData,
    error: Option<string>,
    successMessage: string)

  /** The state the view starts in: the active tab, newest first, nothing
      being edited. */
  function InitialState(): (s: ViewState)
    ensures s.activeTab == ActiveTab && s.sortConfig == SortConfig(CreatedField, Desc)
    ensures s.error.None? && s.successMessage == ""
    ensures s.editingTaskId.None? && s.editingTaskStatus.None? && s.formData == EmptyForm
  {
    ViewState(ActiveTab, SortConfig(CreatedField, Desc), None, None, EmptyForm, None, "")
  }

  /** The view is editing a task exactly when it remembers that task's
      status. */
  predicate EditingConsistent(s: ViewState) {
    s.editingTaskId.Some? <==> s.editingTaskStatus.Some?
  }

  // ---- sorting -----------------------------------------------------------

  function FieldName(f: SortField): string {
    match f
    case TitleField => "title"
    case CreatedField => "created"
    case DueDateField => "dueDate"
  }

  function DirectionName(d: Direction): string {
    if d == Asc then "asc" else "desc"
  }

  function Flip(d: Direction): Direction {
    if d == Asc then Desc else Asc
  }

  /** toggleSort: the selected field flips direction; another field becomes
      selected, ascending. */
  function ToggleSort(c: SortConfig, field: SortField): (r: SortConfig)
    ensures r.field == field
    ensures r.direction == (if c.field == field then Flip(c.direction) else Asc)
    ensures r.direction != c.direction || c.field != field
  {
    if c.field == field then SortConfig(field, Flip(c.direction)) else SortConfig(field, Asc)
  }

  /** Toggling the selected field twice restores the sort configuration; a
      field that was not selected ends up descending. */
  lemma ToggleSortTwice(c: SortConfig, field: SortField)
    ensures c.field == field ==> ToggleSort(ToggleSort(c, field), field) == c
    ensures c.field != field ==> ToggleSort(ToggleSort(c, field), field) == SortConfig(field, Desc)
  {
  }

  /** getSortArrow: ↕ for a column that is not sorted, ↑ or ↓ for the sorted
      one. */
  function SortArrow(c: SortConfig, field: SortField): (r: string)
    ensures r == "\U{2195}" <==> c.field != field
    ensures r == "\U{2191}" <==> c.field == field && c.direction == Asc
    ensures r == "\U{2193}" <==> c.field == field && c.direction == Desc
  {
    if c.field != field then "\U{2195}"
    else match c.direction
      case Asc => "\U{2191}"
      case Desc => "\U{2193}"
  }

  /** After a click on a column's arrow, that column shows ↑ unless it was
      already sorted ascending, and every other column shows ↕. */
  lemma ArrowAfterToggle(c: SortConfig, clicked: SortField, other: SortField)
    requires other != clicked
    ensures SortArrow(ToggleSort(c, clicked), clicked)
         == (if c.field == clicked && c.direction == Asc then "\U{2193}" else "\U{2191}")
    ensures SortArrow(ToggleSort(c, clicked), other) == "\U{2195}"
  {
  }

  /** The ordering the backend applies to the query a sort configuration
      sends. */
  function OrderOf(c: SortConfig): OrderSpec {
    match c.field
    case TitleField => ByTitle(c.direction)
    case CreatedField => ByCreated(c.direction)
    case DueDateField => ByDueDate(c.direction)
  }

  /** The list query of a status tab (status, sort and direction parameters)
      is always accepted by GET /api/tasks, which then filters by that status
      and orders as the column and direction say. */
  lemma ListQueryAccepted(status: Status, c: SortConfig)
    ensures Store.ParseListQuery(Some(StatusName(status)), Some(FieldName(c.field)), Some(DirectionName(c.direction)))
         == Ok(Store.ListQuery(Some(status), OrderOf(c)))
  {
  }

  // ---- form handling -------------------------------------------------------

  /** resetForm: leaves edit mode and clears the form; nothing else changes. */
  function ResetForm(s: ViewState): (r: ViewState)
    ensures r.editingTaskId.None? && r.editingTaskStatus.None? && r.formData == EmptyForm
    ensures r.activeTab == s.activeTab && r.sortConfig == s.sortConfig
    ensures r.error == s.error && r.successMessage == s.successMessage
  {
    s.(editingTaskId := None, editingTaskStatus := None, formData := EmptyForm)
  }

  function OrEmpty(v: Option<string>): (r: string)
    ensures v.Some? ==> r == v.value
    ensures v.None? ==> r == ""
  {
    if v.Some? then v.value else ""
  }

  /** handleEdit: opens the form on the create tab, remembers the task's id
      and status, and copies its fields, a null becoming "". */
  function HandleEdit(s: ViewState, t: Task): (r: ViewState)
    ensures r.activeTab == CreateTab && r.sortConfig == s.sortConfig
    ensures r.editingTaskId == Some(t.id) && r.editingTaskStatus == Some(t.status)
    ensures r.formData == FormData(t.title, OrEmpty(t.description), OrEmpty(t.dueDate), OrEmpty(t.notes))
    ensures r.error.None? && r.successMessage == ""
  {
    ViewState(CreateTab, s.sortConfig, Some(t.id), Some(t.status),
              FormData(t.title, OrEmpty(t.description), OrEmpty(t.dueDate), OrEmpty(t.notes)),
              None, "")
  }

  /** The three tab buttons: switching clears the messages; the create tab
      also clears the form. */
  function SelectTab(s: ViewState, tab: Tab): (r: ViewState)
    ensures r.activeTab == tab && r.error.None? && r.successMessage == ""
    ensures r.sortConfig == s.sortConfig
    ensures tab == CreateTab ==> r.editingTaskId.None? && r.editingTaskStatus.None? && r.formData == EmptyForm
    ensures tab != CreateTab ==>
              r.editingTaskId == s.editingTaskId && r.editingTaskStatus == s.editingTaskStatus && r.formData == s.formData
  {
    var r := s.(activeTab := tab, successMessage := "", error := None);
    if tab == CreateTab then ResetForm(r) else r
  }

  datatype HttpMethod = Post | Put

  /** The JSON object handleSubmit sends. */
  datatype SavePayload = SavePayload(
    title: string, description: string, dueDate: Option<string>, notes: string, status: Status)

  datatype SaveRequest = SaveRequest(verb: HttpMethod, path: string, payload: SavePayload)

  /** Either the form is refused locally (and nothing is sent) or a request
      goes out. */
  datatype SubmitOutcome = Refused(state: ViewState) | Send(request: SaveRequest)

  const TitleMissing := "Title is required"
  const TasksPath := "/api/tasks"

  /** A new task is saved as active; an edited one keeps the status it was
      opened with (active if there was none). */
  function StatusForSave(s: ViewState): (st: Status)
    ensures s.editingTaskId.None? ==> st == Active
    ensures s.editingTaskId.Some? && s.editingTaskStatus.Some? ==> st == s.editingTaskStatus.value
    ensures s.editingTaskStatus.None? ==> st == Active
  {
    if s.editingTaskId.Some? && s.editingTaskStatus.Some? then s.editingTaskStatus.value else Active
  }

  /** handleSubmit up to the request: a blank title is refused with "Title is
      required"; otherwise the trimmed title, the form text and the status go
      out, by PUT to the edited task's path or by POST. */
  function Submit(s: ViewState): (r: SubmitOutcome)
    ensures r.Refused? <==> AllWhiteSpace(s.formData.title)
    ensures r.Refused? ==> r.state == s.(error := Some(TitleMissing))
    ensures r.Send? ==> r.request.verb == (if s.editingTaskId.Some? then Put else Post)
    ensures r.Send? && s.editingTaskId.Some? ==>
              r.request.path == TasksPath + "/" + IntToString(s.editingTaskId.value)
    ensures r.Send? && s.editingTaskId.None? ==> r.request.path == TasksPath
    ensures r.Send? ==> r.request.payload.title == Trim(s.formData.title) && r.request.payload.title != []
    ensures r.Send? ==> (r.request.payload.dueDate.None? <==> s.formData.dueDate == "")
    ensures r.Send? && s.formData.dueDate != "" ==> r.request.payload.dueDate == Some(s.formData.dueDate)
    // description and notes go out exactly as typed, untrimmed
    ensures r.Send? ==> r.request.payload.description == s.formData.description
    ensures r.Send? ==> r.request.payload.notes == s.formData.notes
    ensures r.Send? ==> r.request.payload.status == StatusForSave(s)
  {
    if Trim(s.formData.title) == [] then Refused(s.(error := Some(TitleMissing)))
    else
      var f := s.formData;
      var editing := s.editingTaskId.Some?;
      var path := if editing then TasksPath + "/" + IntToString(s.editingTaskId.value) else TasksPath;
      var payload := SavePayload(Trim(f.title), f.description, if f.dueDate == "" then None else Some(f.dueDate),
                                 f.notes, StatusForSave(s));
      Send(SaveRequest(if editing then Put else Post, path, payload))
  }

  /** The request body the backend receives for a payload. */
  function PayloadBody(p: SavePayload): Body {
    map[
      "title" := Str(p.title),
      "description" := Str(p.description),
      "dueDate" := (if p.dueDate.Some? then Str(p.dueDate.value) else Null),
      "notes" := Str(p.notes),
      "status" := Str(StatusName(p.status))]
  }

  /** Every request handleSubmit sends passes the backend's validation, which
      stores the trimmed title and text fields and the status sent. */
  lemma SubmitAcceptedByBackend(s: ViewState)
    requires Submit(s).Send?
    ensures MapTaskFromBody(PayloadBody(Submit(s).request.payload))
         == Ok(TaskFields(Trim(s.formData.title), Some(Trim(s.formData.description)),
                          if s.formData.dueDate == "" then None else Some(Trim(s.formData.dueDate)),
                          Some(Trim(s.formData.notes)), StatusForSave(s)))
  {
    var p := Submit(s).request.payload;
    var body := PayloadBody(p);
    assert body["title"] == Str(p.title);
    assert Field(body, "description") == Some(Str(p.description));
    assert Field(body, "notes") == Some(Str(p.notes));
    assert Field(body, "dueDate") == Some(if p.dueDate.Some? then Str(p.dueDate.value) else Null);
    assert body["status"] == Str(StatusName(p.status));
    TrimIdempotent(s.formData.title);
    assert TitleValid(body) && DueDateValid(body) && StatusValid(body);
    var r := MapTaskFromBody(body);
    assert r.value.title == Trim(s.formData.title);
    assert r.value.description == Some(Trim(s.formData.description));
    assert r.value.notes == Some(Trim(s.formData.notes));
    assert r.value.dueDate == (if s.formData.dueDate == "" then None else Some(Trim(s.formData.dueDate)));
    assert r.value.status == StatusForSave(s);
  }

  /** The id in an edit request's path is read back by the backend as the
      edited task's id. */
  lemma EditPathCarriesId(s: ViewState)
    requires Submit(s).Send? && s.editingTaskId.Some?
    ensures var path := Submit(s).request.path;
            |path| > |TasksPath| + 1 && ParseInt(path[|TasksPath| + 1..]) == Some(s.editingTaskId.value)
  {
    var path := Submit(s).request.path;
    var id := s.editingTaskId.value;
    assert path[|TasksPath| + 1..] == IntToString(id);
    ParseIntRoundTrip(id);
  }

  function StatusTab(st: Status): Tab {
    if st == Active then ActiveTab else DoneTab
  }

  /** A 2xx answer to the save: the success message, no error, the edited
      task's status tab when editing, and a cleared form. */
  function SaveSucceeded(s: ViewState): (r: ViewState)
    ensures r.editingTaskId.None? && r.editingTaskStatus.None? && r.formData == EmptyForm
    ensures r.error.None?
    ensures r.successMessage == (if s.editingTaskId.Some? then "Task updated successfully." else "Task created successfully.")
    ensures r.activeTab == (if s.editingTaskId.Some? then StatusTab(StatusForSave(s)) else s.activeTab)
    ensures r.sortConfig == s.sortConfig
  {
    var editing := s.editingTaskId.Some?;
    var r := s.(successMessage := if editing then "Task updated successfully." else "Task created successfully.",
                error := None);
    ResetForm(if editing then r.(activeTab := StatusTab(StatusForSave(s))) else r)
  }

  /** The reason shown when the save is answered with an error: the server's
      error text, or "Failed to save task" when it gives none. */
  function SaveFailureReason(serverError: Option<string>): (reason: string)
    ensures reason != ""
    ensures serverError.Some? && serverError.value != "" ==> reason == serverError.value
    ensures !(serverError.Some? && serverError.value != "") ==> reason == "Failed to save task"
  {
    if serverError.Some? && serverError.value != "" then serverError.value else "Failed to save task"
  }

  /** The three requests whose failure the view reports. */
  datatype Action = Save | StatusChange | Removal

  function FailurePrefix(a: Action): string {
    match a
    case Save => "Error saving task: "
    case StatusChange => "Error updating status: "
    case Removal => "Error deleting task: "
  }

  /** A failed request shows its action's prefix followed by the reason, and
      changes nothing else: the form, edit mode, tab and success message stay
      as they were. */
  function ActionFailed(s: ViewState, a: Action, reason: string): (r: ViewState)
    ensures r.error.Some? && |r.error.value| == |FailurePrefix(a)| + |reason|
    ensures r.error.value[..|FailurePrefix(a)|] == FailurePrefix(a)
    ensures r.error.value[|FailurePrefix(a)|..] == reason
    ensures r.(error := s.error) == s
  {
    var message := FailurePrefix(a) + reason;
    assert message[..|FailurePrefix(a)|] == FailurePrefix(a);
    assert message[|FailurePrefix(a)|..] == reason;
    s.(error := Some(message))
  }

  // ---- row actions ---------------------------------------------------------

  /** The row button moves a task to the other status. */
  function TargetStatus(st: Status): (r: Status)
    ensures r != st
  {
    if st == Active then Done else Active
  }

  /** Pressing the row button twice restores the status. */
  lemma TargetStatusTwice(st: Status)
    ensures TargetStatus(TargetStatus(st)) == st
  {
  }

  /** The JSON body the row button's PATCH sends. */
  function StatusChangeBody(target: Status): Body {
    map["status" := Str(StatusName(target))]
  }

  /** The backend reads back exactly the status the row button sends. */
  lemma StatusChangeBodyAccepted(target: Status)
    ensures StatusOf(Field(StatusChangeBody(target), "status")) == Some(target)
  {
  }

  /** A successful status change; the form is reset when it was editing that
      task. */
  function StatusChangeSucceeded(s: ViewState, taskId: int, target: Status): (r: ViewState)
    ensures r.successMessage == "Task moved to " + StatusName(target) + "." && r.error.None?
    ensures s.editingTaskId == Some(taskId) ==>
              r.editingTaskId.None? && r.editingTaskStatus.None? && r.formData == EmptyForm
    ensures s.editingTaskId != Some(taskId) ==>
              r.editingTaskId == s.editingTaskId && r.editingTaskStatus == s.editingTaskStatus && r.formData == s.formData
    ensures r.activeTab == s.activeTab && r.sortConfig == s.sortConfig
  {
    var r := s.(successMessage := "Task moved to " + StatusName(target) + ".", error := None);
    if s.editingTaskId == Some(taskId) then ResetForm(r) else r
  }

  /** A successful delete; the form is reset when it was editing that task. */
  function DeleteSucceeded(s: ViewState, taskId: int): (r: ViewState)
    ensures r.successMessage == "Task deleted successfully." && r.error.None?
    ensures s.editingTaskId == Some(taskId) ==>
              r.editingTaskId.None? && r.editingTaskStatus.None? && r.formData == EmptyForm
    ensures s.editingTaskId != Some(taskId) ==>
              r.editingTaskId == s.editingTaskId && r.editingTaskStatus == s.editingTaskStatus && r.formData == s.formData
    ensures r.activeTab == s.activeTab && r.sortConfig == s.sortConfig
  {
    var r := s.(successMessage := "Task deleted successfully.", error := None);
    if s.editingTaskId == Some(taskId) then ResetForm(r) else r
  }

  const StatusChangeRejected := "Failed to update status"
  const DeleteRejected := "Failed to delete task"

  /** The reason a request answered with a non-2xx status fails with: the
      save passes on the server's error text (or its default), while the
      status change and the delete throw fixed texts. */
  function RejectionReason(a: Action, serverError: Option<string>): (reason: string)
    ensures a == Save ==> reason == SaveFailureReason(serverError)
    ensures a == StatusChange ==> reason == StatusChangeRejected
    ensures a == Removal ==> reason == DeleteRejected
  {
    match a
    case Save => SaveFailureReason(serverError)
    case StatusChange => StatusChangeRejected
    case Removal => DeleteRejected
  }

  /** The error a non-2xx answer to a save shows: the server's text when it
      gives one, otherwise the default. */
  lemma RejectedSaveMessage(s: ViewState, serverError: Option<string>)
    ensures serverError.Some? && serverError.value != "" ==>
              ActionFailed(s, Save, RejectionReason(Save, serverError)).error
              == Some("Error saving task: " + serverError.value)
    ensures !(serverError.Some? && serverError.value != "") ==>
              ActionFailed(s, Save, RejectionReason(Save, serverError)).error
              == Some("Error saving task: Failed to save task")
  {
    ActionFailedMessage(s, Save, RejectionReason(Save, serverError));
    SaveRejectedText();
  }

  lemma SaveRejectedText()
    ensures FailurePrefix(Save) == "Error saving task: "
    ensures FailurePrefix(Save) + "Failed to save task" == "Error saving task: Failed to save task"
  {
  }

  /** A non-2xx answer to a status change always shows the same sentence,
      whatever the server said. */
  lemma RejectedStatusChangeMessage(s: ViewState, serverError: Option<string>)
    ensures ActionFailed(s, StatusChange, RejectionReason(StatusChange, serverError)).error
         == Some("Error updating status: Failed to update status")
  {
    ActionFailedMessage(s, StatusChange, StatusChangeRejected);
    StatusChangeRejectedText();
  }

  /** A non-2xx answer to a delete always shows the same sentence, whatever
      the server said. */
  lemma RejectedDeleteMessage(s: ViewState, serverError: Option<string>)
    ensures ActionFailed(s, Removal, RejectionReason(Removal, serverError)).error
         == Some("Error deleting task: Failed to delete task")
  {
    ActionFailedMessage(s, Removal, DeleteRejected);
    DeleteRejectedText();
  }

  lemma StatusChangeRejectedText()
    ensures FailurePrefix(StatusChange) + StatusChangeRejected == "Error updating status: Failed to update status"
  {
  }

  lemma DeleteRejectedText()
    ensures FailurePrefix(Removal) + DeleteRejected == "Error deleting task: Failed to delete task"
  {
  }

  /** The error ActionFailed shows is the prefix followed by the reason. */
  lemma ActionFailedMessage(s: ViewState, a: Action, reason: string)
    ensures ActionFailed(s, a, reason).error == Some(FailurePrefix(a) + reason)
  {
    var m := ActionFailed(s, a, reason).error.value;
    var k := |FailurePrefix(a)|;
    assert m == m[..k] + m[k..];
  }

  // ---- properties across transitions --------------------------------------

  /** Every transition keeps edit id and edit status together. */
  lemma TransitionsKeepEditingConsistent(s: ViewState, t: Task, tab: Tab, field: SortField,
                                         id: int, target: Status, a: Action, reason: string)
    requires EditingConsistent(s)
    ensures EditingConsistent(InitialState())
    ensures EditingConsistent(ResetForm(s)) && EditingConsistent(HandleEdit(s, t))
    ensures EditingConsistent(SelectTab(s, tab))
    ensures EditingConsistent(s.(sortConfig := ToggleSort(s.sortConfig, field)))
    ensures Submit(s).Refused? ==> EditingConsistent(Submit(s).state)
    ensures EditingConsistent(SaveSucceeded(s)) && EditingConsistent(StatusChangeSucceeded(s, id, target))
    ensures EditingConsistent(DeleteSucceeded(s, id)) && EditingConsistent(ActionFailed(s, a, reason))
  {
  }

  /** Opening a task for editing and saving it: a PUT to that task's path
      carrying its status, after which the view shows that status's tab and
      leaves edit mode. */
  lemma EditThenSave(s: ViewState, t: Task)
    requires !AllWhiteSpace(t.title)
    ensures var e := HandleEdit(s, t);
            && Submit(e).Send?
            && Submit(e).request.verb == Put
            && Submit(e).request.path == TasksPath + "/" + IntToString(t.id)
            && Submit(e).request.payload.status == t.status
            && Submit(e).request.payload.title == Trim(t.title)
            && SaveSucceeded(e).activeTab == StatusTab(t.status)
            && SaveSucceeded(e).editingTaskId.None?
  {
  }

  /** A task that goes to the other status leaves the tab the view shows. */
  lemma StatusChangeLeavesTab(t: Task)
    ensures StatusTab(TargetStatus(t.status)) != StatusTab(t.status)
  {
  }
}
