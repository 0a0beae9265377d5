# ToDoListFull, modelled in Dafny

ToDoListFull is a small to-do application with four parts that share one
record, a task made of an id, a text and a completion flag:

- an offline iOS app (`mobile/TodoApp.swift`) whose view-model keeps the
  whole list in memory and edits it in place;
- a REST server (`Api/main.py`) that keeps the tasks in a table keyed by
  integer id and offers list, create, update, toggle and delete;
- a browser client (`Web/main.js`) that caches the server's tasks in a
  module-level array, edits a task in place and escapes text for HTML;
- an online iOS app (`mobile/AppFull/AppFull/TodoApp.swift`) whose
  `APIClient` checks every HTTP answer and whose view-model sends each
  change to the server and then reloads the list from it.

The Dafny project follows that structure, one module per source file plus
three shared ones:

| module | file | what it holds |
|---|---|---|
| `Results` | `Results.dfy` | `Option`, `Result` and `Outcome` (success or a thrown error) |
| `Text` | `Text.dfy` | whitespace trimming as JavaScript's `trim` and Swift's `.whitespacesAndNewlines` do it; they differ on U+FEFF and U+0085 |
| `IndexSets` | `IndexSets.dfy` | Swift's `IndexSet`: ascending iteration and `remove(atOffsets:)` |
| `Offline` | `Offline.dfy` | the offline view-model as a class with a `seq` field |
| `Api` | `Api.dfy` | the server: specification functions per endpoint and a `TaskTable` class whose methods are proved against them |
| `Web` | `Web.dfy` | `escapeHtml` with its inverse, the `tasks` cache as a class, the edit session as a class |
| `Online` | `Online.dfy` | the `APIClient` checks as functions, a client class that forwards requests to a `TaskTable`, and the online view-model |

In the online model the server is the `Api.TaskTable` itself. The network
is a fixed set of request positions: a request whose position in the
client's log is in `unreachable` never reaches the server and fails with a
transport error. Every other request reaches the server and gets the
server's answer. So the view-model's contracts speak about what the server
table holds afterwards, as well as about `items` and `lastErrorMessage`.

Behaviour of the code worth knowing:

- The server does not trim text. `TaskAddSchema` only requires 1 to 500
  characters, so a whitespace-only text sent directly is stored. Only the
  clients trim.
- The offline app stores the text as typed, untrimmed. It trims only to
  decide whether the text is blank.
- An update body without `completed` sets the task to not completed, the
  schema's default.
- A new id is only "not in the table now". The table does not remember
  deleted ids, so an id may come back after its task is deleted.
- The online `update` does not skip unchanged text; only the web client's
  `finishEdit` does.
- Update, toggle and delete of a missing id answer status 200 with a
  "not found" message, not an error status. The online client then throws
  `missingTask` for update and toggle. For delete it treats the answer as
  success.

## Model

| member | source | states |
|---|---|---|
| `Text.TrimStart` | Web/main.js:64 | the result is a suffix of the input, everything dropped is whitespace, and the result does not start with whitespace |
| `Text.TrimEnd` | Web/main.js:64 | the result is a prefix of the input, everything dropped is whitespace, and the result does not end with whitespace |
| `Text.Trim` | mobile/AppFull/AppFull/TodoApp.swift:127 | a trimmed text is empty or starts and ends with a non-space character |
| `Text.TrimEmptyIffBlank` | mobile/TodoApp.swift:39 | trimming gives the empty string exactly when every character is whitespace (both directions) |
| `Text.TrimDropsOnlySpace` | mobile/AppFull/AppFull/TodoApp.swift:156 | everything the input holds after the trimmed text is whitespace |
| `Text.TrimIdempotent` | Web/main.js:173 | trimming an already trimmed text changes nothing |
| `IndexSets.Ascending` | mobile/AppFull/AppFull/TodoApp.swift:141 | iterating an index set visits exactly its offsets below the bound, in strictly ascending order |
| `IndexSets.Survivors` | mobile/TodoApp.swift:44 | the offsets below the bound that are not in the set, strictly ascending |
| `IndexSets.AscendingSurvivorsSplit` | mobile/TodoApp.swift:44 | visited and surviving offsets together account for every position of the list |
| `IndexSets.AscendingLength` | mobile/AppFull/AppFull/TodoApp.swift:141 | with all offsets in range, iteration visits each offset exactly once |
| `IndexSets.AscendingCount` | mobile/AppFull/AppFull/TodoApp.swift:141 | iteration visits as many offsets as the set has below the bound |
| `IndexSets.RemoveOffsets` | mobile/TodoApp.swift:44 | removing offsets never lengthens the list |
| `IndexSets.RemoveOffsetsKeepsSurvivors` | mobile/TodoApp.swift:44 | after removal the list is exactly the elements at the surviving offsets, in their original relative order |
| `IndexSets.RemoveOffsetsLength` | mobile/TodoApp.swift:43-45 | with all offsets in range, the list shrinks by exactly the number of offsets |
| `Offline.FirstIndex` | mobile/TodoApp.swift:48 | none iff no element has the id; otherwise an index holding the id with no earlier element holding it |
| `Offline.Replaced` | mobile/TodoApp.swift:47-51 | same length; only the first element with the item's id becomes the item; with no match the list is unchanged |
| `Offline.Toggled` | mobile/TodoApp.swift:53-57 | ids and texts kept everywhere; only the first element with the id has `done` flipped; with no match the list is unchanged |
| `Offline.FirstIndexSameIds` | mobile/TodoApp.swift:54 | the first-match search looks only at ids |
| `Offline.ToggleTwiceRestores` | mobile/TodoApp.swift:53-57 | toggling the same id twice restores the list |
| `Offline.AppendFreshKeepsDistinct` | mobile/TodoApp.swift:40 | appending an item with a fresh id keeps all ids distinct |
| `Offline.EditsKeepDistinct` | mobile/TodoApp.swift:47-57 | update and toggle keep all ids distinct |
| `Offline.RemoveOffsetsKeepsDistinct` | mobile/TodoApp.swift:43-45 | removing offsets keeps all ids distinct |
| `Offline.TodoViewModel.constructor` | mobile/TodoApp.swift:73-82 | the list is the decoded saved document, or empty when there is none or it does not decode |
| `Offline.TodoViewModel.Add` | mobile/TodoApp.swift:38-41 | blank text leaves the list unchanged; otherwise exactly one item, untrimmed and not done, is appended at the end |
| `Offline.TodoViewModel.Delete` | mobile/TodoApp.swift:43-45 | the list becomes the survivors of the offsets, and its length drops by the number of offsets |
| `Offline.TodoViewModel.Update` | mobile/TodoApp.swift:47-51 | the list becomes `Replaced` of the old list |
| `Offline.TodoViewModel.ToggleDone` | mobile/TodoApp.swift:53-57 | the list becomes `Toggled` of the old list at the argument's id |
| `Offline.TodoViewModel.ImportFromData` | mobile/TodoApp.swift:84-87 | a decode failure is passed on with the list untouched; otherwise the list is the decoded list, ids included |
| `Api.Validate` | Api/main.py:44-46 | a body is accepted iff it has text of 1 to 500 characters; the text is kept as sent; `completed` is true only when sent as true |
| `Api.Serialize` | Api/main.py:48-49 | the answer carries the task's id, and its text and flag give back the stored row |
| `Api.AfterCreate` | Api/main.py:58-64 | an invalid body leaves the table and answers 422; a valid one adds exactly one row under the new id, keeps every other row, and answers with that task |
| `Api.AfterUpdate` | Api/main.py:66-74 | invalid body: 422, no change; missing id: "not found" and no task, no change; otherwise both fields of that row are set, nothing else changes, and the task is returned |
| `Api.AfterSwitch` | Api/main.py:76-83 | missing id: "not found", no change; otherwise only that row's flag is negated, its text kept, and the task returned |
| `Api.AfterDelete` | Api/main.py:85-92 | exactly that key is removed and the other rows are kept; the answer never carries a task and says whether the id existed |
| `Api.SwitchTwiceRestores` | Api/main.py:81 | toggling twice restores the table |
| `Api.UpdateWithSameValues` | Api/main.py:71-72 | writing back a task's own values leaves the table unchanged |
| `Api.ListingAfterCreateAndDelete` | Api/main.py:52-56 | a created task appears in every later listing; a deleted id appears in none |
| `Api.ListedAt` | Api/main.py:56 | every key of the table is in a listing, serialized |
| `Api.TaskTable.constructor` | Api/main.py:38-42 | a new table is empty |
| `Api.TaskTable.GetTasks` | Api/main.py:52-56 | the answer lists every row exactly once as `{id, text, completed}` |
| `Api.TaskTable.CreateTask` | Api/main.py:58-64 | the new table and answer are `AfterCreate` for some id not in the old table |
| `Api.TaskTable.UpdateTask` | Api/main.py:66-74 | the new table and answer are `AfterUpdate` of the old table |
| `Api.TaskTable.SwitchCompleted` | Api/main.py:76-83 | the new table and answer are `AfterSwitch` of the old table |
| `Api.TaskTable.DeleteTask` | Api/main.py:85-92 | the new table and answer are `AfterDelete` of the old table |
| `Api.ScanCoversTable` | Api/main.py:54-55 | a scan that visits every key once is as long as the table |
| `Api.Without` | Api/main.py:90 | dropping a key from the scan order keeps the other keys, each once |
| `Api.FreshKey` | Api/main.py:40 | the chosen primary key is not in use |
| `Web.EscapeHtml` | Web/main.js:225-235 | escaping never shortens the text |
| `Web.Unescape` | Web/main.js:226-232 | reading the five entities back never lengthens the text |
| `Web.EscapeHtmlConcat` | Web/main.js:234 | escaping distributes over concatenation |
| `Web.EscapeHtmlHasNoMarkup` | Web/main.js:226-234 | escaped text contains no `<`, `>`, `"` or `'` |
| `Web.EscapeHtmlKeepsPlainText` | Web/main.js:234 | text without `&` or markup characters is unchanged |
| `Web.UnescapeEscapeHtml` | Web/main.js:226-234 | unescaping escaped text gives the original text back |
| `Web.WithoutId` | Web/main.js:113 | a task is kept iff it was in the cache and has a different id |
| `Web.ReplaceById` | Web/main.js:137 | same length; every task with the id becomes the server's task and every other task is unchanged |
| `Web.FindById` | Web/main.js:149 | none iff no cached task has the id; otherwise the first task with it |
| `Web.IndexOfId` | Web/main.js:149 | the first position holding the id |
| `Web.WithoutIdConcat` | Web/main.js:113 | deleting keeps the other tasks in their order |
| `Web.WithoutAbsentId` | Web/main.js:113 | deleting an id no task has changes nothing |
| `Web.ReplaceTouchesOnlyThatId` | Web/main.js:137 | replacing by id changes nothing outside that id |
| `Web.WebClient.constructor` | Web/main.js:6 | the cache starts empty |
| `Web.WebClient.LoadTasks` | Web/main.js:15-28 | the cache becomes the server's array, or empty on a failed request, an error status, an unparsable body or a non-array body |
| `Web.WebClient.AddTask` | Web/main.js:62-96 | blank input sends nothing and changes nothing; otherwise the trimmed text is posted as not completed, the user is alerted iff the answer is not accepted, and the answer's task, when present, is appended |
| `Web.WebClient.DeleteTask` | Web/main.js:98-119 | on an accepted answer every task with the id is dropped; otherwise the cache is unchanged and the user alerted |
| `Web.WebClient.ToggleTask` | Web/main.js:121-144 | on an accepted answer with a task, tasks with the id are replaced by it; otherwise the cache is unchanged |
| `Web.WebClient.StartEdit` | Web/main.js:146-162 | no session iff the id is not cached; otherwise a new session on the first such task, holding its text, with listeners installed |
| `Web.WebClient.FinishEdit` | Web/main.js:192-223 | empty or unchanged text sends nothing; otherwise the text is put with the task's own flag and an accepted task replaces the cached tasks with the id |
| `Web.Finalization` | Web/main.js:177-186 | commit iff blur or Enter; discard iff Escape; every other key is ignored |
| `Web.EditSession.constructor` | Web/main.js:155-162 | the input holds the task's text and both listeners are installed |
| `Web.EditSession.Input` | Web/main.js:173 | typing replaces the input's value and leaves the listeners as they were |
| `Web.EditSession.Handle` | Web/main.js:164-186 | once removed, listeners do nothing; blur or Enter finishes with the trimmed value, Escape discards, both remove the listeners; other keys leave the session open |
| `Online.ListingDecodes` | mobile/AppFull/AppFull/TodoApp.swift:58 | a decoded server listing lists every row of the table exactly once |
| `Online.CheckStatus` | mobile/AppFull/AppFull/TodoApp.swift:46-52 | transport failure is passed on; a non-HTTP answer is `badStatus(-1)`; any status but 200 is `badStatus(status)`; success iff HTTP 200 |
| `Online.TasksFrom` | mobile/AppFull/AppFull/TodoApp.swift:54-59 | status failures are passed on; success iff status 200 with an array, which is returned |
| `Online.TaskFrom` | mobile/AppFull/AppFull/TodoApp.swift:61-72 | status failures are passed on; 200 without a task is `missingTask`; success iff 200 with a task, which is returned |
| `Online.DeletedFrom` | mobile/AppFull/AppFull/TodoApp.swift:98-104 | success iff HTTP 200, whatever the body |
| `Online.ApiClient.constructor` | mobile/AppFull/AppFull/TodoApp.swift:42-44 | a new client has sent nothing |
| `Online.ApiClient.FetchTasks` | mobile/AppFull/AppFull/TodoApp.swift:54-59 | one GET is logged; unreachable gives a transport error; otherwise the result lists the server table |
| `Online.ApiClient.CreateTask` | mobile/AppFull/AppFull/TodoApp.swift:61-72 | one POST is logged; unreachable or refused text (`badStatus(422)`) leaves the table; otherwise exactly one row with that text and flag is added under a fresh id and returned |
| `Online.ApiClient.UpdateTask` | mobile/AppFull/AppFull/TodoApp.swift:74-85 | one PUT is logged; unreachable, refused text or a missing id (`missingTask`) leaves the table; otherwise that row gets the text and flag and is returned |
| `Online.ApiClient.ToggleTask` | mobile/AppFull/AppFull/TodoApp.swift:87-96 | one PATCH is logged; unreachable or a missing id leaves the table; otherwise that row's flag is negated and the row returned |
| `Online.ApiClient.DeleteTask` | mobile/AppFull/AppFull/TodoApp.swift:98-104 | one DELETE is logged; unreachable fails and leaves the table; otherwise it succeeds and the id is gone |
| `Online.Delivered` | mobile/AppFull/AppFull/TodoApp.swift:145-150 | the number of requests that get through before the first that does not |
| `Online.Created` | mobile/AppFull/AppFull/TodoApp.swift:182-184 | the number of imported items created before the first failing create |
| `Online.IdsAtCovers` | mobile/AppFull/AppFull/TodoApp.swift:141 | with offsets in range, one id is taken per offset, and an id is taken iff the item at some offset has it |
| `Online.IdsAtDistinct` | mobile/AppFull/AppFull/TodoApp.swift:141 | when the listed items have distinct ids, the ids taken are distinct, so no id is deleted twice |
| `Online.CreatedOneMore` | mobile/AppFull/AppFull/TodoApp.swift:182-183 | one more create under an id not in use adds exactly that item's row and keeps every other row |
| `Online.ExtendedSize` | mobile/AppFull/AppFull/TodoApp.swift:182-184 | creating under fresh, distinct ids grows the table by exactly one row per id |
| `Online.ExtendedRows` | mobile/AppFull/AppFull/TodoApp.swift:182-184 | creating items one after the other under fresh, distinct ids keeps every old row unchanged, stores each item's text and flag under its id, adds no other row and grows the table by one row per item |
| `Online.TodoViewModel.constructor` | mobile/AppFull/AppFull/TodoApp.swift:108-116 | the list starts empty with no error message |
| `Online.TodoViewModel.Load` | mobile/AppFull/AppFull/TodoApp.swift:118-124 | one GET; on success the list is the server's listing and the message is kept; on failure the list is unchanged and the load message is set |
| `Online.TodoViewModel.Add` | mobile/AppFull/AppFull/TodoApp.swift:126-138 | text that trims to nothing (blank text, by `Text.TrimEmptyIffBlank`) sends nothing and changes nothing; otherwise the trimmed text is created not completed; success adds one fresh row and reloads; failure leaves the table and list and sets the add message |
| `Online.TodoViewModel.DeleteEach` | mobile/AppFull/AppFull/TodoApp.swift:145-147 | one delete per id in order; it fails iff some request does not get through; exactly the ids before that one leave the table, the others are kept unchanged |
| `Online.TodoViewModel.Delete` | mobile/AppFull/AppFull/TodoApp.swift:140-153 | the ids are taken before any request and deleted in ascending offset order; exactly those before the first failure leave the table; a failure skips the reload and sets the delete message; otherwise the list is reloaded |
| `Online.TodoViewModel.Update` | mobile/AppFull/AppFull/TodoApp.swift:155-167 | text that trims to nothing sends nothing; otherwise the trimmed text is sent with the item's own flag; success sets that row and reloads; failure sets the update message |
| `Online.TodoViewModel.Toggle` | mobile/AppFull/AppFull/TodoApp.swift:169-178 | only the item's id is sent; success negates that row's flag and reloads; failure sets the toggle message |
| `Online.TodoViewModel.CreateEach` | mobile/AppFull/AppFull/TodoApp.swift:182-184 | one create per item in order with its text and flag; it fails at the first item that is unreachable (transport error) or refused (`badStatus(422)`); the new table is `Online.Extended` of the old one: one row per item before it, each holding the item's text and flag under its own id, the ids fresh and distinct (what that table holds is `Online.ExtendedRows`) |
| `Online.TodoViewModel.ImportFromData` | mobile/AppFull/AppFull/TodoApp.swift:180-186 | a decode failure sends nothing; otherwise one create per item in order; the new table is `Online.Extended` of the old one under fresh, distinct ids, one per item created before the first failure, so (by `Online.ExtendedRows`) the old rows are kept unchanged, each such item has its own new row holding its text and flag, and no other row is added; the table grows by one row per success; the first failure is thrown without reload or message; after all creates the list is reloaded |
| `Online.TodoViewModel.ClearError` | mobile/AppFull/AppFull/TodoApp.swift:201-203 | the message is cleared and the list is unchanged |
| `Online.TodoViewModel.ReportError` | mobile/AppFull/AppFull/TodoApp.swift:205-208 | the message is set and the list is unchanged |

## Left out

- Persistence of the offline list (`saveToDocuments`, the `didSet` hook, the document path) and both apps' `exportURL`: file I/O. The saved document and any imported data enter the model as decoded values.
- JSON encoding and decoding: the decoder's answer is a parameter (`Result` or `Option`) and server answers are datatypes.
- HTTP and the database: `fetch`, `URLSession`, SQLAlchemy sessions, commit and refresh, CORS, static files and startup. The server is a table in memory and the online client calls it directly.
- Asynchrony: the `Task {}` blocks of the online view-model and the `async` handlers of the web client run to completion one at a time, so interleavings are not modelled. In particular the online `init()` only schedules a load; the model's constructor does not load, and `Load` is called separately.
- Rendering, alerts, console output, focus handling and the wording of messages. Web handlers return whether they alerted, and the online view-model records which of its fixed messages it set.
- The regular-expression replacement in `escapeHtml` is modelled as its effect, a per-character table.
- SQLite's choice of a new id: any id not in the table (`Api.FreshKey` picks one larger than all in use).
- `Online.ApiClient.FetchTasks`: the server always sends an array, so the model never reaches the decode failure. `Online.TasksFrom` states that case on its own.
- `Online.ApiClient.CreateTask`, `Online.ApiClient.UpdateTask`, `Online.ApiClient.ToggleTask`, `Online.ApiClient.DeleteTask` and the failure branches of `Online.TodoViewModel.Add`, `Update`, `Toggle`, `Delete` and `ImportFromData`: a failed request is one that never reached the server, so failure leaves the table as it was. A response lost after the server applied the request (a timeout, a dropped connection) is not modelled; there `add` reports a failure although the row exists, and a failed `delete(at:)` may already have removed that id.
- The order of `get_tasks` is any order: the table keeps a scan order of its own, and `Api.IsListing` accepts every order.
- Text encodings: strings are sequences of Unicode characters; none of the whitespace characters lies outside the Basic Multilingual Plane, so UTF-16 details of JavaScript strings do not affect trimming.
