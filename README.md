# A verified model of the jira-type kanban board

This project models the logic at the core of a small Jira-style issue
tracker: a React kanban board backed by a Django REST API. Issues belong to
projects, carry a status (`TODO`, `IN_PROG`, `REVIEW`, `DONE`), a priority
and an `order`, and are shown in three status columns that the user
rearranges by dragging cards.

Modules, one per source file of the core, plus shared helpers:

- `Board` (frontend/src/Board.jsx) — the board controller as a class with
  the local `issues` list and the `activeDragIssue` snapshot. It covers:
  - the server-load sort;
  - the search filter and the three status columns;
  - the drag-start, drag-over and drag-end handlers. The drag-end handler
    returns the status and order requests it would send.
  - `arrayMove` of @dnd-kit/sortable, with the contract its three call
    sites (Board.jsx:86, 97 and 130) rely on.
- `Dashboard` (frontend/src/Dashboard.jsx) — status and priority counts,
  and the Total / Completed / Pending figures.
- `Avatar` (frontend/src/Avatar.jsx) — the 32-bit string hash behind the
  avatar colour, and the initials.
- `Api` (frontend/src/api.js) — the pure request-shaping code:
  - CSRF token extraction and the project key;
  - the issue-list URL and the bulk-order payload;
  - the bodies of the issue, status and profile updates.
- `Models` (backend/issues/models.py) — key numbering on save, the issue
  key, field defaults and the profile receivers. The issue table is a
  class over a map from primary key to row.
- `Views` (backend/issues/views.py) — the bulk order update over the issue
  table, and the comment query.
- `Serializers` (backend/issues/serializers.py) — the subtask progress
  summary.
- `Admin` (backend/issues/admin.py) — comment truncation.
- `Sync` — an order request built by the board and applied by the
  backend numbers the column 0, 1, 2, … in board order.
- `Seqs`, `Text` and `Wrappers` are shared helpers: filter, stable sort,
  ASCII case mapping, digit strings, Option and Result.

Model choices:

- JavaScript's sort is stable, so it is modelled as a stable insertion
  sort.
- A drag id is either an issue's number or a column's string. `===`
  never equates a number with a string.
- Dropping onto a column gives `newIndex == -1`, so the dragged issue
  moves to the end of the whole list.
- Integer arithmetic on JavaScript numbers is exact. `<<` goes through
  ToInt32, and `& 0xffffff` keeps the low 24 bits.

Dropping an issue onto itself:

- The list is left unchanged (`DropOnItself`).
- Board.jsx:141-145 still posts the order update for the issue's column
  (`DragEnd`'s contract).
- It also posts a status update when drag-over changed the issue's status
  (`DragEnd`'s contract).

## Model

| member | source | states |
|---|---|---|
| Seqs.SortBySorted | frontend/src/Board.jsx:30 | the sort used on server data yields non-decreasing `order` |
| Seqs.SortByStable | frontend/src/Board.jsx:30 | the sort is stable: for every key, the issues with that key keep their relative server order |
| Dashboard.StatusPartition | frontend/src/Dashboard.jsx:23-26 | the three status selections are disjoint and together hold exactly the issues with a board status |
| Api.CsrfToken | frontend/src/api.js:29-31 | null exactly when no `csrftoken=` is followed by a non-`;` character; otherwise the leftmost such match's token, non-empty, `;`-free and maximal |
| Api.CsrfTokenOfCookie | frontend/src/api.js:30-31 | a cookie string starting with `csrftoken=<t>` followed by `;` or its end yields `t` |
| Api.ProjectKey | frontend/src/api.js:33 | the key has min(3, length) characters, each the upper-cased character of the name |
| Api.IssuesUrlFilters | frontend/src/api.js:42 | `IssuesUrl` gives the URL `fetchIssues` requests: the unfiltered `issues/` URL is used exactly when the project id is missing or 0 (falsy) |
| Api.IssuesUrlInjective | frontend/src/api.js:42 | distinct truthy project ids give distinct `IssuesUrl` URLs |
| Api.OrderPayload | frontend/src/api.js:174-177 | same length as the issues; entry i is the i-th issue's id with order i |
| Api.UpdateIssueRequest | frontend/src/api.js:84-89 | the body holds every field except `id`, unchanged; `id` appears only in the path (`undefined` when absent) |
| Api.UpdateIssueKeepsFields | frontend/src/api.js:84-89 | body plus path id recover the caller's object |
| Api.UpdateIssueStatusRequest | frontend/src/api.js:95-105 | the body holds only `status` |
| Api.StatusUpdateIsIssueUpdate | frontend/src/api.js:105 | a status update is the general update of `{id, status}` |
| Api.AppendIfTruthy | frontend/src/api.js:234-237 | one conditional append: the form grows from the entries of the first k profile fields to those of the first k + 1 |
| Api.UpdateCurrentUserForm | frontend/src/api.js:233-237 | the form is the entries of first_name, last_name, email and avatar taken in turn, each appended with its value when that value is truthy |
| Api.FormForEntries | frontend/src/api.js:234-237 | `FormFor` gives the entries of the conditional appends for a list of fields: every entry is one of the fields with a present, truthy value, carrying that value |
| Api.FormForComplete | frontend/src/api.js:234-237 | every field with a present, truthy value is in the `FormFor` form, with that value |
| Api.FormForNames | frontend/src/api.js:234-237 | the `FormFor` form's field names are exactly the fields with truthy values, in the order of the appends |
| Board.FindIndex | frontend/src/Board.jsx:122-123 | the first index whose issue has the id, or -1 when none has |
| Board.ColumnIdFindsNothing | frontend/src/Board.jsx:123 | a column id matches no issue, so `newIndex` is -1 for a column drop |
| Board.ArrayMove | frontend/src/Board.jsx:129-130 | same length and elements; the element at `from` (the last for -1) lands at `to` (the end for -1); the others keep their relative order |
| Board.ArrayMoveSameIndex | frontend/src/Board.jsx:97 | moving an element onto its own index changes nothing |
| Board.FilteredIssuesSpec | frontend/src/Board.jsx:39-43 | `FilteredIssues` gives the searched list: an empty search keeps the list; otherwise a single issue is kept exactly when its lower-cased title or key contains the lower-cased term, the filter of a concatenation is the concatenation of the filters (list order), and a matching issue is kept as often as it occurs |
| Board.NoMatchEmptiesColumns | frontend/src/Board.jsx:39-51 | a search nothing matches empties every column |
| Board.BucketStep | frontend/src/Board.jsx:47-49 | pushing an issue onto its status bucket keeps each bucket equal to the filter of the issues seen so far |
| Board.FinalStatusOnBoard | frontend/src/Board.jsx:113-120 | `FinalStatus` gives the drop's `newStatus`; with board statuses throughout, it is a column status |
| Board.WithStatusAt | frontend/src/Board.jsx:126-128 | only the issue at the index changes, and only its status |
| Board.DropListSpec | frontend/src/Board.jsx:122-131 | `DropList` gives the list a drop commits: it is a permutation of the list with the dragged issue's status set, and the dragged issue sits at the target's index (the end for a column) |
| Board.DropOnItself | frontend/src/Board.jsx:113-131 | dropping an issue onto itself leaves the `DropList` list unchanged |
| Board.DropListOnBoard | frontend/src/Board.jsx:113-132 | `DropList` keeps every issue in a column when all were |
| Board.BoardController.constructor | frontend/src/Board.jsx:18-19 | the board starts with no issues and no snapshot |
| Board.BoardController.LoadServerIssues | frontend/src/Board.jsx:28-33 | no data leaves the list; data replaces it with the same issues sorted by `order`, ties in server order |
| Board.BoardController.Columns | frontend/src/Board.jsx:45-51 | exactly the keys TODO, IN_PROG, DONE, each the filtered issues with exactly that status in list order, so other statuses appear nowhere |
| Board.BoardController.DragStart | frontend/src/Board.jsx:55-61 | snapshots the issue with the active id if found, else keeps the snapshot; never touches the list |
| Board.BoardController.DragOver | frontend/src/Board.jsx:63-100 | no-op without a target, on itself, for a column drag, for an unknown issue or an equal status; over an issue of another status the dragged issue takes it and moves to that index; over another column it takes the column's status in place; statuses stay on the board |
| Board.BoardController.DragEnd | frontend/src/Board.jsx:102-146 | always clears the snapshot; no target means no change and no request; otherwise the list becomes the committed drop list, and the requests are a status update iff a snapshot existed with another status, then one order update numbering the final status's issues of the whole list |
| Dashboard.StatusTallyStep | frontend/src/Dashboard.jsx:24-26 | incrementing the issue's status count keeps every count equal to the issues seen with that status |
| Dashboard.PriorityTallyStep | frontend/src/Dashboard.jsx:37-39 | the same for priorities |
| Dashboard.StatusData | frontend/src/Dashboard.jsx:22-32 | three slices To Do, In Progress, Done with the exact count of issues of each status and their fixed colours |
| Dashboard.PriorityData | frontend/src/Dashboard.jsx:35-45 | three bars Low, Medium, High with the exact LOW, MED, HIGH counts; CRI is not counted |
| Dashboard.StatusCountsBound | frontend/src/Dashboard.jsx:25 | the status counts add up to the issues with a board status, so to at most all issues |
| Dashboard.PriorityCountsBound | frontend/src/Dashboard.jsx:38 | the priority counts add up to at most all issues |
| Dashboard.Stats | frontend/src/Dashboard.jsx:98-100 | Total is the issue count, Completed the DONE count, Pending TODO plus IN_PROG, and Completed + Pending ≤ Total |
| Avatar.ToInt32 | frontend/src/Avatar.jsx:8 | a signed 32-bit value congruent to the input modulo 2^32 |
| Avatar.ShiftLeft5 | frontend/src/Avatar.jsx:8 | a signed 32-bit value congruent to 32 times the input modulo 2^32 |
| Avatar.HashIsPoly31 | frontend/src/Avatar.jsx:7-9 | the hash loop, `(hash << 5) - hash` plus each character's code, agrees modulo 2^32 with the base-31 polynomial hash `Poly31` |
| Avatar.LowBitsArePoly31 | frontend/src/Avatar.jsx:7-10 | the low 24 bits of the hash are those of the base-31 polynomial hash |
| Avatar.StringToColor | frontend/src/Avatar.jsx:4-12 | `#dfe1e6` for a missing or empty name; otherwise `#` and six upper-case hex digits whose value is the hash's low 24 bits, which is the base-31 polynomial hash `Poly31` of the name modulo 2^24 |
| Avatar.GetInitials | frontend/src/Avatar.jsx:15-18 | `?` for a missing or empty name; otherwise the first min(2, length) characters upper-cased |
| Text.DigitsRoundTrip | frontend/src/Avatar.jsx:10 | reading the digit string back gives the number |
| Text.IntToStringRoundTrip | backend/issues/models.py:75 | parsing the decimal rendering of an integer gives it back |
| Models.NewIssueRow | backend/issues/models.py:44-58 | a new issue has no key number, type TASK, priority MED, status TODO and order 0 |
| Models.AllocationUnique | backend/issues/models.py:67-69 | the allocated key number of a project is determined by its rows |
| Models.AllocationIsFresh | backend/issues/models.py:62-69 | the allocated number exceeds every key number in the project |
| Models.AllocationIsLocal | backend/issues/models.py:68 | rows of other projects do not change a project's key numbers |
| Models.AllocationAdvances | backend/issues/models.py:67-69 | after a row takes the allocated number k, the project's next allocation is k + 1 |
| Models.ScanAllocates | backend/issues/models.py:68-69 | the maximum found by the scan, through `or 0` and `+ 1`, is the allocation |
| Models.IssueTable.NextKeyId | backend/issues/models.py:68-69 | returns one more than the project's largest key number, or 1 when it has none |
| Models.IssueTable.Save | backend/issues/models.py:65-70 | a row without a number gets the allocation and is written; a preset number is kept; a clash with another row of the project is refused with nothing written; the unique constraint is preserved |
| Models.IssueKey | backend/issues/models.py:72-75 | the key starts with the project key and a dash |
| Models.KeyRoundTrip | backend/issues/models.py:75 | a key with a non-negative number splits back into project key and number |
| Models.KeysDistinct | backend/issues/models.py:75 | distinct non-negative numbers give distinct keys |
| Models.ProfileTable.OnUserSaved | backend/issues/models.py:113-125 | after a user save the user has a profile; only a first save of a user that already has one is refused |
| Views.CompleteRun | backend/issues/views.py:45-46 | the number of leading entries that have both `id` and `order` |
| Views.SetOrdersEffect | backend/issues/views.py:44-46 | `SetOrders` gives the rows after the entries' updates in turn: no row is added or removed; only `order` changes; a named issue gets the order of the last entry naming it; others are unchanged |
| Views.UnknownIdsIgnored | backend/issues/views.py:46 | an entry whose id matches no issue changes nothing |
| Views.SetOrdersKeepsKeys | backend/issues/views.py:46 | the unique (project, key_id) constraint survives the update |
| Views.BulkUpdateOrder | backend/issues/views.py:42-47 | applies the entries in turn up to the first lacking a key, which raises KeyError after the earlier writes; a missing `issues` changes nothing and succeeds with `orders updated` |
| Views.CommentQuerySpec | backend/issues/views.py:57-62 | `CommentQuery` gives exactly the comments of the given issue (all without the parameter), with multiplicity, by non-decreasing creation time |
| Serializers.Progress | backend/issues/serializers.py:66-71 | None exactly when the issue has no subtasks; otherwise 1 ≤ total and completed ≤ total |
| Serializers.NoneOfIssue | backend/issues/serializers.py:67-69 | the count is zero exactly when no subtask row belongs to the issue |
| Serializers.ProgressCounts | backend/issues/serializers.py:67-71 | total counts the issue's subtasks; completed counts those both of the issue and completed |
| Admin.ShortText | backend/issues/admin.py:45-46 | up to 50 characters unchanged; longer texts become their first 50 characters and `...`; never longer than 53 |
| Sync.AsItems | frontend/src/api.js:174-179 | every posted entry carries both `id` and `order` |
| Sync.LastOrderForDistinct | backend/issues/views.py:45-46 | with distinct ids, an id's last entry is its only entry |
| Sync.ColumnOrderApplied | frontend/src/api.js:174-179 | the board's order request for a column of distinct ids is accepted whole; each listed issue the table holds gets its index as order, and other rows are untouched |

## Left out

- HTTP, axios, promises, react-query caching and refetching are not modelled. Requests are returned as records instead of being sent. The `X-CSRFToken` header is not part of these records: `CsrfToken` models how its value is read from the cookie, not how it is attached.
- React rendering is not modelled: JSX, styles, modals, the charts of Dashboard.jsx, and the `src` branch of Avatar.jsx.
- React state updates are modelled as applied at once. The functional updaters in Board.jsx read the same list as the handler.
- dnd-kit internals are not modelled: sensors, collision detection and activation distance. `arrayMove` is modelled for the indices Board can pass, -1 up to the last index.
- Case mapping is ASCII only. `toLowerCase` and `toUpperCase` can change the length of non-ASCII text.
- JavaScript strings are sequences of UTF-16 code units. Here one character counts as one unit, so characters outside the Basic Multilingual Plane hash and truncate differently.
- Avatar.StringToColor: the hash is an exact integer. This matches the JavaScript number only while it stays below 2^53, which holds for names shorter than about four million characters.
- Board.BoardController.Columns: an issue whose status names an `Object.prototype` member (`toString`, `constructor`, `hasOwnProperty`, `__proto__`) makes `cols[issue.status].push` throw a TypeError at Board.jsx:48, so the board does not render. The model skips such an issue like any other unknown status. The backend's `status` choices (backend/issues/models.py:26-30 and 49) keep these values out of stored issues.
- Dashboard: a status or priority equal to a built-in property name such as `constructor` is treated like any other unknown value. The source's behaviour for such names is not modelled.
- Api.CsrfToken works on the cookie string alone. `document.cookie` is a parameter.
- Models: concurrent saves, which can both compute the same `max + 1`, are not modelled.
- Models: Django's ORM, signal dispatch and DRF permissions are not modelled.
- Models.IssueTable.Save takes the primary key the database assigns as a parameter.
- Models.IssueTable.Save: when the database refuses the row, the in-memory `key_id` that Python has already assigned is not modelled.
- Views.BulkUpdateOrder:
  - `issues` present but not a list is not modelled; `None` stands for a missing key;
  - ids or orders that are not integers are not modelled;
  - earlier writes persist after a KeyError, assuming autocommit without request-wide transactions.
- Views.CommentQuerySpec: the `issue` parameter is an optional integer, with an empty string read as absent. Ties in `created_at` keep table order, where the database guarantees no order.
- The authentication views, URL routing, `HistorySerializer` and the other serializers are not part of this model.
- The remaining UI components are not part of this model: App.jsx, the modals, Sidebar.jsx, IssueCard.jsx, Column.jsx, Login.jsx, Register.jsx and main.jsx.
