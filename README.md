# Task manager: a verified model

This project models the two halves of a small to-do application written in JavaScript:

- **The backend** is an Express server over an in-memory SQLite table of tasks. A task has an id, a title, a description, a due date, notes, an `active`/`done` status and a creation time.
- **The frontend** is a React view. It lists the active or done tasks in a chosen order and lets the user create, edit, move and delete them.

The Dafny model is split into these modules:

| module | file | what it holds |
|---|---|---|
| `Wrappers` | `wrappers.dfy` | `Option` and `Result` |
| `Text` | `text.dfy` | JavaScript `String.prototype.trim` over the JavaScript whitespace set; ASCII case folding (SQLite `NOCASE`); code-point lexicographic order (SQLite `BINARY` collation on UTF-8 text); decimal printing of integers |
| `IdParsing` | `id_parsing.dfy` | `Number.parseInt(text, 10)`, as the id routes use it to read `:id` |
| `Validation` | `validation.dfy` | JSON request bodies, the task records, the status names, `sanitizeOptionalText` and `mapTaskFromBody` (full mode) |
| `Ordering` | `ordering.dfy` | `buildOrderBy` as an ordering value, and the comparator each `ORDER BY` clause stands for, proved to be a total preorder |
| `Store` | `store.dfy` | the `tasks` table as the class `TaskStore`, with the AUTOINCREMENT counter, the clock and the seed rows; the six `/api/tasks` handlers are its methods |
| `Scenarios` | `scenarios.dfy` | request sequences against one store, mirroring the backend's test flows |
| `View` | `view.dfy` | the frontend's state and its handlers as pure transition functions, plus the lemmas that connect the requests it sends to the backend model |

The backend table is mutated in place, so it is a class. Its fields are `tasks: map<int, Task>`, `nextId` (the next AUTOINCREMENT value), `clock` (the CURRENT_TIMESTAMP reading) and a ghost `issued` set holding every id ever handed out.

`Valid()` is the invariant every handler keeps:

- each row is stored under its own id;
- that id was issued and is below the counter;
- its title is non-empty and trimmed;
- it is stamped no later than the clock.

`List` scans the ids in rowid order and inserts each selected row into a sorted listing. It is proved to return exactly the selected rows (as a multiset) with every adjacent pair in the requested order. The frontend's React state updates have no sequencing beyond "apply these setters". They are therefore functions from one `ViewState` to the next.

## Model

| member | source | states |
|---|---|---|
| Text.Trim | packages/backend/src/app.js:34 | the result is no longer than the input; it is empty exactly when the input is all JavaScript whitespace; otherwise it starts and ends with non-whitespace; a string without whitespace at either edge is returned unchanged |
| Text.TrimStartSpec | packages/backend/src/app.js:34 | trimming the start removes a prefix that is all whitespace and leaves a suffix not starting with whitespace |
| Text.TrimEndSpec | packages/backend/src/app.js:34 | trimming the end removes a suffix that is all whitespace and leaves a prefix not ending with whitespace |
| Text.TrimIdempotent | packages/backend/src/app.js:34 | trimming twice is the same as trimming once |
| Text.Fold | packages/backend/src/app.js:45 | NOCASE folding keeps the length and folds each character, changing only A–Z, each to its lower-case letter |
| Text.LexLessTrichotomy | packages/backend/src/app.js:45-49 | any two distinct strings are ordered one way or the other |
| Text.LexLessTransitive | packages/backend/src/app.js:45-49 | the string order is transitive |
| Text.LexLessAsymmetric | packages/backend/src/app.js:45-49 | the string order is asymmetric |
| Text.NatToString | packages/frontend/src/App.js:111 | a printed natural number is a non-empty run of digits with no leading zero |
| Text.IntToString | packages/frontend/src/App.js:111 | a printed integer is non-empty and starts with a digit or a minus sign; its value is fixed by IdParsing.ParseIntRoundTrip |
| IdParsing.DigitPrefix | packages/backend/src/app.js:173 | the longest prefix made of digits: a prefix, all digits, and followed by a non-digit or the end |
| IdParsing.ParseInt | packages/backend/src/app.js:173 | NaN exactly when no digit follows the leading whitespace and an optional sign; never negative without a minus sign; its value is fixed by IdParsing.ParseIntValue |
| IdParsing.ParseIntNaN | packages/backend/src/app.js:173-177 | a blank id, or one starting with a character that is neither whitespace, digit nor sign, is NaN |
| IdParsing.DigitsValueOfNatToString | packages/backend/src/app.js:173 | the digits of a printed number read back as that number |
| IdParsing.ParseIntOfPrinted | packages/backend/src/app.js:173 | a printed integer followed by anything not starting with a digit parses back to that integer |
| IdParsing.ParseIntRoundTrip | packages/backend/src/app.js:173 | parseInt of a printed integer gives that integer |
| IdParsing.TrimStartSkipsWhiteSpace | packages/backend/src/app.js:173 | trimming the start of a text behind any whitespace gives what trimming the text alone gives |
| IdParsing.ParseIntSkipsWhiteSpace | packages/backend/src/app.js:173 | whitespace in front of an id never changes what parseInt reads |
| IdParsing.DigitsValueLeadingZero | packages/backend/src/app.js:173 | a zero in front of a digit string does not change its value |
| IdParsing.SignedDigits | packages/backend/src/app.js:173 | after an optional sign and a digit, parseInt reads the digits from just after the sign, and the id is negative exactly when the sign is a minus |
| IdParsing.ParseIntOfUnsigned | packages/backend/src/app.js:173 | once whitespace and sign are stripped, digits followed by a non-digit or the end give their value, negated after a minus |
| IdParsing.ParseIntOfSigned | packages/backend/src/app.js:173 | an optional sign, digits and then anything not starting with a digit give the digits' value, negated after a minus |
| IdParsing.ParseIntValue | packages/backend/src/app.js:173 | the value of every accepted id: any leading whitespace, an optional sign, digits (leading zeros included) and a tail not starting with a digit give the digits' value, negated after a minus |
| IdParsing.ParseIntLeadingZero | packages/backend/src/app.js:173 | a zero in front of the digits, after any whitespace and either sign or none, names the same id ("07" as "7", "-07" as "-7") |
| IdParsing.ParseIntOfSpacedId | packages/backend/src/app.js:173 | " 12" reads as 12 |
| IdParsing.ParseIntOfPlusId | packages/backend/src/app.js:173 | "+12" reads as 12 |
| IdParsing.ParseIntOfZeroPaddedId | packages/backend/src/app.js:173 | "007" reads as 7 |
| Validation.ParseStatus | packages/backend/src/app.js:21 | only "active" and "done" are statuses, and each names its own status |
| Validation.StatusNameRoundTrip | packages/backend/src/app.js:21 | every status name is accepted as its status |
| Validation.StatusOf | packages/backend/src/app.js:130 | a JSON value denotes a status exactly when it is the string "active" or "done" |
| Validation.SanitizeOptionalText | packages/backend/src/app.js:25-35 | a string becomes its trimmed self, which is already trimmed and is empty exactly when the string is blank; a missing value, null or a non-string becomes null |
| Validation.DueDateOf | packages/backend/src/app.js:114-121 | an absent, null or empty due date becomes null; any other string is trimmed |
| Validation.MapTaskFromBody | packages/backend/src/app.js:98-139 | the title error comes first, then the due-date error, then the status error; the body is accepted exactly when all three checks pass; an accepted body yields the trimmed non-empty title, the sanitized description and notes, the due-date rule, and the given status or active |
| Validation.AbsentFieldsDefault | packages/backend/src/app.js:108-136 | a body with only a usable title gets null description, due date and notes and the active status |
| Validation.NonStringTextBecomesNull | packages/backend/src/app.js:30-31 | a non-string description or notes value is stored as null rather than rejected |
| Validation.EmptyDescriptionKept | packages/backend/src/app.js:108-109 | an empty description is stored as "" and not as null |
| Validation.TrimOfBlank | packages/backend/src/app.js:34 | a blank string trims and sanitizes to "" |
| Validation.BlankDueDate | packages/backend/src/app.js:118 | a blank but non-empty due date is stored as "", and an empty one as null |
| Ordering.BuildOrderBy | packages/backend/src/app.js:37-53 | a missing or unknown sort gives created_at DESC whatever the direction; otherwise the direction is ascending exactly for "asc"; "title" and "dueDate" select their orders |
| Ordering.Precedes | packages/backend/src/app.js:41-52 | the comparator each ORDER BY clause stands for: created_at in the direction; folded title in the direction, equal titles newest first; due dates before missing ones, dates in the direction, equal or missing dates newest first |
| Ordering.UnknownSortIgnoresDirection | packages/backend/src/app.js:40-42 | with no valid sort, both directions give the same fallback order |
| Ordering.StrictlyBeforeTotal | packages/backend/src/app.js:45-52 | keys compared in either direction are totally ordered |
| Ordering.StrictlyBeforeTransitive | packages/backend/src/app.js:45-52 | keys compared in either direction are transitively ordered |
| Ordering.StrictlyBeforeAsymmetric | packages/backend/src/app.js:45-52 | two keys cannot each come strictly before the other, and a key never comes strictly before itself |
| Ordering.PrecedesTotal | packages/backend/src/app.js:37-53 | under every ORDER BY clause, any two tasks can be listed one way or the other |
| Ordering.PrecedesTransitive | packages/backend/src/app.js:37-53 | every ORDER BY clause is transitive, including its created_at DESC tiebreak |
| Ordering.KeyThenNewerTransitive | packages/backend/src/app.js:45-49 | a key order with newest-first ties is transitive |
| Ordering.SortedPairwise | packages/backend/src/app.js:159-163 | in a listing whose neighbours are ordered, every earlier task may precede every later one |
| Ordering.Insert | packages/backend/src/app.js:159-163 | inserting into a sorted listing keeps it sorted and adds exactly that task |
| Ordering.TitleOrder | packages/backend/src/app.js:45 | a title-sorted listing never has a later title strictly before an earlier one, ignoring ASCII case; equal titles are newest first |
| Ordering.DueDateOrder | packages/backend/src/app.js:49 | in a due-date-sorted listing, tasks without a due date come last in either direction; due dates follow the direction; equal or missing dates are newest first |
| Ordering.CreatedOrder | packages/backend/src/app.js:41-52 | a creation-sorted listing follows the requested direction |
| Store.Replace | packages/backend/src/app.js:236-246 | a full UPDATE sets the five client fields and keeps the id and created_at |
| Store.ResolveId | packages/backend/src/app.js:173-183 | a NaN id gives 400 "Valid task ID is required"; a parsed id with no row gives 404 "Task not found"; otherwise it gives that id |
| Store.ParseListQuery | packages/backend/src/app.js:146-156 | a non-empty unknown status fails first, then a non-empty unknown direction; an accepted query filters exactly when a status is given, by that status, and orders by buildOrderBy with the direction defaulting to "desc" |
| Store.WellFormedTitleTrimmed | packages/backend/src/app.js:102-105 | a row invariant holds exactly when the title is non-empty, already trimmed, and the row is stamped no later than the clock |
| Store.SeedTasksWellFormed | packages/backend/src/app.js:68-92 | the seed rows get ids 1 and 2 and satisfy the row invariant |
| Store.TaskStore.constructor | packages/backend/src/app.js:56-92 | the new table holds exactly the two seed tasks; the counter is at 3 and the invariant holds |
| Store.TaskStore.Get | packages/backend/src/app.js:171-190 | the id errors as ResolveId says; otherwise 200 with the row stored under that id |
| Store.TaskStore.Create | packages/backend/src/app.js:192-215 | a rejected body gives 400 with its error and changes nothing; otherwise 201 with a new row under a never-issued id above every id issued before (AUTOINCREMENT), built from the validated fields and stamped with the advanced clock, all other rows kept, and the invariant kept |
| Store.TaskStore.Update | packages/backend/src/app.js:217-254 | the id is checked before the body; on success only that row changes, with its five client fields replaced; the invariant is kept |
| Store.TaskStore.PatchStatus | packages/backend/src/app.js:256-284 | the id is checked first, then the status; on success only that row's status changes; the invariant is kept |
| Store.TaskStore.Delete | packages/backend/src/app.js:286-308 | the id errors as ResolveId says; otherwise exactly that row is removed and the answer carries its id |
| Store.TaskStore.List | packages/backend/src/app.js:144-169 | a rejected query gives 400 with its error; otherwise 200 with exactly the selected rows, each once, in the requested order |
| Store.ScannedAll | packages/backend/src/app.js:159-163 | once the scan passes every stored id it has selected exactly the filtered rows |
| Store.ScanOne | packages/backend/src/app.js:159-163 | each scanned id adds its row, once, exactly when it is stored and matches |
| Scenarios.DeleteTwice | packages/backend/src/app.js:286-308 | a second delete of a deleted task answers 404; a failed delete fails the same way again |
| Scenarios.DeleteThenCreate | packages/backend/src/app.js:58 | a task created after a delete never reuses the deleted id (AUTOINCREMENT) |
| Scenarios.CreatePatchListDeleteGet | packages/backend/src/app.js:144-308 | a created task is active; after PATCH it is done under the same id and listed under done; deleting it answers with its id; then GET answers 404 |
| View.InitialState | packages/frontend/src/App.js:5-21 | the view starts on the active tab, sorted newest first, with nothing being edited, an empty form, no error and an empty success message |
| View.ToggleSort | packages/frontend/src/App.js:212-226 | the clicked field becomes the sort field; it flips direction when it was already selected and is ascending otherwise |
| View.ToggleSortTwice | packages/frontend/src/App.js:212-226 | two clicks on the selected field restore the sort; two clicks on another field leave it descending |
| View.SortArrow | packages/frontend/src/App.js:228-234 | ↕ exactly for an unselected column; ↑ exactly for the selected column when ascending; ↓ exactly when descending |
| View.ArrowAfterToggle | packages/frontend/src/App.js:212-234 | after a click, that column shows ↑ unless it had been ascending, and other columns show ↕ |
| View.ListQueryAccepted | packages/frontend/src/App.js:75-84 | the list query of a status tab is always accepted by GET /api/tasks, which filters by that status in the order the sort state names |
| View.ResetForm | packages/frontend/src/App.js:55-64 | edit mode is left and the form cleared; nothing else changes |
| View.OrEmpty | packages/frontend/src/App.js:180-185 | a null field becomes "" and a present one is kept |
| View.HandleEdit | packages/frontend/src/App.js:176-188 | the create tab opens with the task's id and status remembered, its fields copied with nulls as "", and the messages cleared |
| View.SelectTab | packages/frontend/src/App.js:247-280 | switching tabs clears both messages and keeps the sort; only the create tab also clears the form and leaves edit mode, the other tabs keep the form and the edited id and status |
| View.StatusForSave | packages/frontend/src/App.js:113 | a new task is saved active; an edited one keeps its remembered status, or is saved active when none is remembered |
| View.Submit | packages/frontend/src/App.js:101-128 | a blank title is refused with "Title is required" and nothing sent; otherwise PUT to the task's path when editing or POST, with the trimmed non-empty title, the description and notes as typed, the due date as typed or null exactly when empty, and the save status |
| View.SubmitAcceptedByBackend | packages/frontend/src/App.js:114-128 | every request the form sends passes mapTaskFromBody, which stores the trimmed title and text fields, the due date and the save status |
| View.EditPathCarriesId | packages/frontend/src/App.js:111 | the id in an edit request's path reads back as the edited task's id |
| View.SaveSucceeded | packages/frontend/src/App.js:135-143 | the created/updated message with no error; after an edit the tab of the saved status; always a cleared form |
| View.SaveFailureReason | packages/frontend/src/App.js:130-133 | the server's error text when it gives one, otherwise "Failed to save task"; never empty |
| View.ActionFailed | packages/frontend/src/App.js:144-208 | a failed save, status change or delete shows "Error saving task: ", "Error updating status: " or "Error deleting task: " followed by the reason; nothing else in the view changes |
| View.ActionFailedMessage | packages/frontend/src/App.js:144-208 | the error shown is the action's prefix followed by the reason |
| View.RejectionReason | packages/frontend/src/App.js:130-133 | a rejected save fails with the server's reason or its default; a rejected status change with "Failed to update status"; a rejected delete with "Failed to delete task" |
| View.RejectedSaveMessage | packages/frontend/src/App.js:130-146 | a rejected save shows "Error saving task: " and the server's text, or "Error saving task: Failed to save task" when it gives none |
| View.RejectedStatusChangeMessage | packages/frontend/src/App.js:160-172 | a rejected status change shows "Error updating status: Failed to update status", whatever the server answered |
| View.RejectedDeleteMessage | packages/frontend/src/App.js:196-208 | a rejected delete shows "Error deleting task: Failed to delete task", whatever the server answered |
| View.TargetStatus | packages/frontend/src/App.js:382 | the row button targets the other status |
| View.TargetStatusTwice | packages/frontend/src/App.js:382 | moving twice restores the status |
| View.StatusChangeBodyAccepted | packages/frontend/src/App.js:152-158 | the backend reads back exactly the status the row button sends |
| View.StatusChangeSucceeded | packages/frontend/src/App.js:164-168 | the "Task moved to …" message with no error; when that task was being edited the form is cleared and both the edited id and status are dropped, otherwise they are kept; the tab and sort are kept |
| View.DeleteSucceeded | packages/frontend/src/App.js:200-204 | the deletion message with no error; when that task was being edited the form is cleared and both the edited id and status are dropped, otherwise they are kept; the tab and sort are kept |
| View.TransitionsKeepEditingConsistent | packages/frontend/src/App.js:14-15 | every handler keeps the edited id and the edited status set or cleared together |
| View.EditThenSave | packages/frontend/src/App.js:110-143 | editing a task and saving it sends a PUT to that task's path with its status and trimmed title, then shows that status's tab and leaves edit mode |
| View.StatusChangeLeavesTab | packages/frontend/src/App.js:382 | a moved task belongs to the other tab |

## Left out

- The partial mode of `mapTaskFromBody` is left out. No route calls it, so only full mode is modelled.
- The `try`/`catch` 500 answers of the handlers ("Failed to fetch tasks" and so on, for example packages/backend/src/app.js:165-168) are left out. They arise only when a database call fails, which the model cannot produce.
- A request body that is not valid JSON is rejected by the `express.json` middleware with a 400 before any handler runs. That rejection is not modelled: every body reaching a handler is a parsed JSON object.
- CORS headers and morgan request logging are left out. They change no answer and no state.
- The SQL text of `buildOrderBy` is left out. The model keeps the ordering it denotes, as an `OrderSpec` and a comparator. Rows whose sort keys are equal may come in any order, as in SQLite.
- `Store.TaskStore.List` states the order only up to ties. SQLite leaves ties in an unspecified order, so the model promises none.
- Time is abstracted. `created_at` is an integer clock that each insert advances by a caller-supplied `tick`; the seeds are stamped 0. CURRENT_TIMESTAMP is real time at second resolution.
- `IdParsing.ParseInt`: the digits are read as an unbounded integer. JavaScript's rounding of very long digit strings to a double is not modelled.
- SQLite's 64-bit limit on ids is not modelled either.
- Query parameters given twice are not modelled. Express turns them into arrays.
- Request bodies that are not JSON objects are not modelled.
- JSON numbers, booleans, arrays and objects are all one `Other` value. Only the difference between string, null and other matters to the handlers.
- The `/api/items` redirect is left out. It only forwards to `/api/tasks`.
- The frontend's network layer is left out: `fetch`, `async` ordering, the loading flag, and the re-fetches after each action (`fetchData` and the task list it stores). Its query is modelled by `View.ListQueryAccepted`. Each handler's outcome is a separate transition function (success or failure), so the model does not capture races between overlapping requests.
- Error text from exceptions raised outside the handlers' own checks (network failures, an error body that is not JSON) reaches the view only as the `reason` parameter of `View.ActionFailed`.
- Date display (`parseDateInput`, `formatDateEu`) is left out. It formats text only and changes no state.
- The JSX rendering is left out (packages/frontend/src/App.js:236-411): headings, the conditional error and success banners, the loading and empty-list texts, and the table layout. It only displays the state the model tracks.
- The form's per-keystroke `onChange` updates are left out. They are plain field assignments.
- `Text.Fold`: ASCII-only case folding is how SQLite's `NOCASE` folds characters. Strings that are not valid Unicode are not modelled.
- `Ordering.Precedes`: SQLite's `NOCASE` stops comparing two titles at a U+0000 and, when the folded titles agree up to a position where both hold U+0000, orders them by byte length alone; the model compares the folded code points of the whole titles. The two orders agree on every title without U+0000, because UTF-8's byte order is the code-point order and a shorter common prefix sorts first in both; titles containing U+0000 may be ordered differently.
