# Todo application front end: list view, toggle and dialog state

This project models the logic of a React to-do front end: the part that computes which
requests go to the todo service and which list is shown.

- **Calendar dates** (`calendar_date.dfy`, module `CalendarDate`). A todo's
  `completionDate` is an ISO 8601 complete calendar date in extended format,
  `YYYY-MM-DD` (section 4.1.2.2 of ISO 8601:2004). It is modelled as a valid
  (year, month, day) triple in the proleptic Gregorian calendar with a four-digit year.
  JavaScript's `new Date("YYYY-MM-DD")` stands for UTC midnight of that day, so its
  timestamp is an increasing affine function of a day number. date-fns `compareAsc`
  is therefore the sign of a day-number difference (`CompareAsc`). Its contract ties
  it to plain calendar order. The ten-character string written by `format(…,
  "yyyy-MM-dd")` and read back by `Parse` round-trips in both directions.
- **Optional values** (`optional.dfy`, module `Optional`): `None | Some`, for
  `undefined`/`null` in the source.
- **Records** (`todo.dfy`, module `TodoTypes`): the `Todo` record and the `TodoStatus`
  filter (`all | pending | completed`). Also the dialog's `FormData` and the
  `Partial<Todo>` patch sent with an update.
- **The visible list** (`list_view.dfy`, module `ListView`). `filteredTodos` filters
  the cached list by status and then sorts the fresh array with a stable sort keyed by
  `compareAsc` on `completionDate`. The sort is modelled as a stable insertion sort.
  `SortIsUnique` proves that every arrangement that is ordered by date and keeps each
  day's records in input order equals it, so the engine's own sort algorithm gives
  the same list.
- **The `useTodos` hook** (`use_todo.dfy`, module `UseTodo`):
  - the `todos = []` default;
  - the toggle request, which finds the first record with the id and patches only
    `completed`;
  - the cache invalidation attached to each mutation's `onSuccess`, modelled as a
    `stale` flag on a map from query keys to entries.
- **The `App` component** (`app.dfy`, class `AppComponent.App`). Its state
  `modalOpen`, `filterStatus` and `selectedTodo` are fields, and so is the query's
  data. Every mutation request a handler fires is appended to the field `issued`. The
  dialog's `mode` and `initialData` are functions of the state.

Two facts come from the code itself:

- An edit sends all three form fields (`todo: data`, `src/App.tsx:74-77`), not only
  the changed ones.
- A toggle with no data loaded is a no-op because `todos` defaults to the empty list
  (`src/hooks/useTodo.ts:7`); there is no separate "not ready" check.

## Model

| member | source | states |
|---|---|---|
| `CalendarDate.CompareAsc` | src/App.tsx:30-32 | the comparator gives -1, 0 or 1 exactly when the first date is an earlier, the same or a later calendar day |
| `CalendarDate.DayNumberOrder` | src/App.tsx:31 | a date's timestamp is strictly increasing in calendar (year, month, day) order |
| `CalendarDate.DayNumberInjective` | src/App.tsx:31 | two well-formed dates have the same timestamp exactly when they are the same date |
| `CalendarDate.DayNumber` | src/App.tsx:31 | a date's day count (its timestamp up to an increasing affine map) lies within the span of its own year |
| `CalendarDate.Format` | src/component/CustomModal.tsx:54 | the `yyyy-MM-dd` form of a date has ten characters, '-' at positions 4 and 7 and digits elsewhere |
| `CalendarDate.ParseFormat` | src/component/CustomModal.tsx:54 | reading back the formatted string gives the same date |
| `CalendarDate.Parse` | src/App.tsx:31 | a string is read as a date only when it has the ten-character `YYYY-MM-DD` shape |
| `CalendarDate.FormatParse` | src/App.tsx:31 | every string read as a date is the formatted form of that date, so a date has exactly one string form |
| `ListView.FilterByStatus` | src/App.tsx:24-29 | the filtered list is no longer than the input and holds only input records that match the status; `FilterAppend` fixes its order |
| `ListView.Matches` | src/App.tsx:25-29 | a record is kept exactly when the status is `all`, or when it is `completed` and the record is completed, or `pending` and it is not |
| `ListView.FilterCount` | src/App.tsx:25-29 | a record occurs in the filtered list as often as in the input if it matches the status, and otherwise never |
| `ListView.FilterSingle` | src/App.tsx:24-29 | a one-record list keeps its record exactly when it matches the status |
| `ListView.FilterAppend` | src/App.tsx:24-29 | the filter keeps input order: the filter of a concatenation is the concatenation of the filtered parts |
| `ListView.FilterOnDay` | src/App.tsx:24-29 | filtering by status and taking one day's records in order give the same list in either order |
| `ListView.FilterAll` | src/App.tsx:28 | with `all` the filter returns the input unchanged |
| `ListView.FilterPartition` | src/App.tsx:26-27 | the `pending` and `completed` filters together hold every input record exactly once, as multisets and by length |
| `ListView.Insert` | src/App.tsx:30-32 | inserting into a date-ordered list keeps it date-ordered and adds exactly that record |
| `ListView.SortByDate` | src/App.tsx:30-32 | the sorted list is ordered by completion date and is a permutation of its input |
| `ListView.InsertOnDay` | src/App.tsx:30-32 | insertion puts the new record in front of the records of its own day and keeps every day's order otherwise |
| `ListView.SortOnDay` | src/App.tsx:30-32 | stability: the records due on each day keep their input order |
| `ListView.SortedUnique` | src/App.tsx:30-32 | two date-ordered lists whose records agree day by day are equal |
| `ListView.SortIsUnique` | src/App.tsx:30-32 | any date-ordered list that keeps each day's input order is exactly the sorted list, so any stable sort gives it |
| `ListView.SortSortedIsIdentity` | src/App.tsx:30-32 | sorting a list already in date order leaves it unchanged |
| `ListView.View` | src/App.tsx:24-32 | `filteredTodos` is date-ordered, no longer than the cached list, and holds only cached records that match the status |
| `ListView.ViewIsStableSort` | src/App.tsx:24-32 | the view is date-ordered, a permutation of the filtered list, and keeps the filtered order within each day |
| `ListView.ViewOnDay` | src/App.tsx:24-32 | the records the view shows for any one day are that day's matching records in the order of the cached list |
| `ListView.ViewMembers` | src/App.tsx:24-32 | a record occurs in the view as often as in the cached list when it matches the status, and not at all otherwise |
| `ListView.ViewMembership` | src/App.tsx:24-32 | a record is in the view exactly when it is cached and matches the status |
| `ListView.CompletedView` | src/App.tsx:24-26 | with `completed`, every viewed record is completed and every completed record is viewed |
| `ListView.PendingView` | src/App.tsx:24-27 | with `pending`, every viewed record is not completed and every such record is viewed |
| `ListView.AllView` | src/App.tsx:24-32 | with `all`, the view is a permutation of the cached list, equal to it when that is already date-ordered, and the pending and completed views split it |
| `ListView.ExampleInsertBehind` | src/App.tsx:30-32 | a record due after the one in a one-record list is placed behind it |
| `ListView.ExampleInsertLatest` | src/App.tsx:30-32 | a record due after both records of an ordered two-record list is placed last |
| `ListView.ExampleSortInOrder` | src/App.tsx:30-32 | two records already in date order stay in that order |
| `ListView.ExampleSort` | src/App.tsx:30-32 | records due 2024-03-05, 2024-01-10 and 2024-02-20 come out in order 2024-01-10, 2024-02-20, 2024-03-05 |
| `ListView.ExampleFilter` | src/App.tsx:24-29 | on three records with one completed, `all` keeps all three, `pending` keeps the other two in order, and `completed` keeps the one |
| `ListView.ExampleView` | src/App.tsx:24-32 | on the same records, the three views are the sorted list, its two pending records and its completed record |
| `UseTodo.DefaultTodos` | src/hooks/useTodo.ts:7 | the todo list is empty while the query has no data, and is the query's data otherwise |
| `UseTodo.FirstWithId` | src/hooks/useTodo.ts:29 | the search finds nothing exactly when no record has the id, and otherwise finds the first record with it |
| `UseTodo.ToggleRequest` | src/hooks/useTodo.ts:28-33 | no request exactly when no record has the id; otherwise one update of that id whose patch holds only `completed`, negated from the first matching record |
| `UseTodo.ApplyPatch` | src/lib/api.ts:27-28 | under the partial-update assumption, a field changes exactly when the patch sends it, to the value sent; `id` and `createdAt` never change |
| `UseTodo.ApplyUpdate` | src/lib/api.ts:27-28 | the update keeps the length and every id, patches the records with the id and leaves every other record as it was |
| `UseTodo.AfterToggle` | src/hooks/useTodo.ts:28-33 | a toggle keeps the length and every id, changes nothing when no record has the id, and never changes a record with another id |
| `UseTodo.TogglePatchTwice` | src/hooks/useTodo.ts:31 | the toggle patch flips `completed` of a record and nothing else, and a second toggle patch restores the record |
| `UseTodo.ToggleFlipsOne` | src/hooks/useTodo.ts:28-33 | with unique ids, a toggle flips `completed` of the one record with that id and changes no other record or field |
| `UseTodo.ToggleTwiceRestores` | src/hooks/useTodo.ts:28-33 | with unique ids, toggling an id twice restores the collection |
| `UseTodo.EditKeepsOtherFields` | src/App.tsx:72-79 | an edit sets title, description and completion date from the form, and leaves id, `completed` and `createdAt` unchanged |
| `UseTodo.Invalidate` | src/hooks/useTodo.ts:14 | invalidation keeps every entry's data and marks stale exactly the entries whose key begins with the filter |
| `UseTodo.OnSuccessKey` | src/hooks/useTodo.ts:14 | the key invalidated on success is `["todos"]` for every mutation |
| `UseTodo.Settle` | src/hooks/useTodo.ts:12-26 | settling keeps every key and every entry's data; a failure changes nothing, and a success marks stale exactly the entries already stale or under `["todos"]` |
| `UseTodo.SameKeyForAllMutations` | src/hooks/useTodo.ts:12-26 | because create, update and delete invalidate the same key, any two successes leave the same cache, and a second success changes nothing more |
| `UseTodo.SuccessMarksTodosStale` | src/hooks/useTodo.ts:12-26 | a successful mutation marks the `["todos"]` entry stale, keeps its data, and changes no entry whose key does not begin with "todos" |
| `UseTodo.SettlesCommute` | src/hooks/useTodo.ts:12-26 | two mutations settling in either order, each succeeding or failing, leave the same cache |
| `UseTodo.SettleKeepsVisibleList` | src/hooks/useTodo.ts:5-26 | after any mutation settles, readers still see the previously fetched list until a re-fetch lands |
| `AppComponent.App.constructor` | src/App.tsx:15-17 | the dialog starts closed, the filter starts at `all`, nothing is selected, and no request has been fired |
| `AppComponent.App.Todos` | src/App.tsx:19 | the component's list is empty while the query has no data, and the query's data otherwise |
| `AppComponent.App.FilteredTodos` | src/App.tsx:19-32 | the rendered list is date-ordered, a permutation of the matching cached records, and holds a record exactly when it is cached and matches; deriving it changes no state |
| `AppComponent.App.Mode` | src/App.tsx:131 | the dialog is in edit mode exactly when a todo is selected |
| `AppComponent.App.InitialData` | src/App.tsx:133-141 | the dialog's initial data exists exactly when a todo is selected, and then copies its title, description and completion date |
| `AppComponent.App.ReceiveTodos` | src/App.tsx:19-22 | a landed fetch becomes the component's todo list and changes nothing else |
| `AppComponent.App.SetFilterStatus` | src/App.tsx:105-107 | choosing a status sets the filter and changes nothing else |
| `AppComponent.App.HandleCloseModal` | src/App.tsx:34-37 | closing hides the dialog and leaves the selection for the deferred reset |
| `AppComponent.App.ResetSelection` | src/App.tsx:36 | the deferred reset clears the selection, which puts the dialog in add mode with no initial data |
| `AppComponent.App.HandleEdit` | src/App.tsx:80-83 | editing a todo selects it, opens the dialog in edit mode with its data, and keeps the filter and the requests |
| `AppComponent.App.OpenAddDialog` | src/App.tsx:96-100 | the Add button clears the selection, opens the dialog in add mode, and keeps the filter and the requests |
| `AppComponent.App.HandleToggleComplete` | src/App.tsx:59-67 | no request for an id that no cached record has; otherwise exactly one more request, the toggle update of that id |
| `AppComponent.App.HandleAddTodo` | src/App.tsx:69-71 | fires one create request with the form data |
| `AppComponent.App.HandleEditTodo` | src/App.tsx:72-79 | fires nothing without a selection; otherwise one update of the selected id carrying the form's three fields |
| `AppComponent.App.HandleDelete` | src/App.tsx:84-86 | fires one delete request for the id |
| `AppComponent.App.Submit` | src/App.tsx:132 | submitting fires the edit handler's update in edit mode and the add handler's create in add mode |
| `AppComponent.App.SubmitDialog` | src/component/CustomModal.tsx:71-75 | the dialog submits through the routed handler and then closes, keeping the filter |
| `AppComponent.EditFlow` | src/App.tsx:72-83 | with no reset pending, choosing a todo to edit and submitting fires one update of that todo's id with the form fields, closes the dialog, keeps the todo selected and the query data unchanged |
| `AppComponent.AddFlow` | src/App.tsx:97-100 | pressing Add and submitting fires one create request, even if a todo was selected before, and leaves nothing selected and the query data unchanged |
| `AppComponent.EditDuringPendingReset` | src/App.tsx:34-37 | when the reset scheduled by a close fires after `handleEdit`, the submit sends a create, not an update, and nothing stays selected |

## Left out

- The HTTP transport in `src/lib/api.ts` is not modelled. That covers the base URL
  taken from the environment, the logging, and the wall-clock `createdAt`, which is
  kept as an uninterpreted string.
- The service's handling of a request is not visible in the code. `ApplyPatch` and
  `ApplyUpdate` assume that the service applies a PATCH as a partial update that
  changes only the fields sent. They are used only to state what a toggle or an edit
  achieves. Creation (server-assigned id) and
  deletion on the service side are not modelled.
- react-query internals are not modelled: re-fetch scheduling, cache lifetime,
  coalescing of fetches, and the order in which concurrent fetches land. A landed
  fetch is the explicit step `App.ReceiveTodos`, and the stale-response race is not
  represented.
- The 300 ms `setTimeout` in `handleCloseModal` is the separate step
  `App.ResetSelection`, so interleavings with other events are written as explicit
  sequences of steps (`EditDuringPendingReset`). There is no record of a pending
  reset and no clock, so nothing forces `ResetSelection` to follow
  `HandleCloseModal`, and the 300 ms delay itself is not modelled.
- Of the dialog component (`src/component/CustomModal.tsx`), only the submit order is
  modelled (`App.SubmitDialog`). Left out are the form reset, its yup required-field
  validation, and the HTML `min` date limit.
- React's batching of state updates is not modelled. Each handler runs against the
  state it reads, in order.
- Rendering components (`TodoItem`, `Button`, `ListBox`, `ThemeSwitcher`,
  `DateRangePicker`) are not modelled: styling, the theme colour, and the
  clock-dependent `isToday` highlight.
- Malformed date strings are left out. JavaScript's `Date` turns them into an invalid
  timestamp and `compareAsc` then yields NaN. Every stored `completionDate` is a
  valid `ValidDate`, and `Parse` rejects anything that is not the extended format of
  a real day. Expanded years beyond four digits are not represented.
- `ListView.SortByDate` stands for the engine's stable `Array.prototype.sort`.
  `SortIsUnique` shows that any stable sort with this comparator yields the same list.
- `Patch` carries only the four fields the front end ever sends. `Partial<Todo>`
  would also allow `id` and `createdAt`.
