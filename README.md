# Optimistic task-list store of the task page

This project models the state and handlers of the single page of a to-do
client (`Home` in `app/page.tsx`). The page holds four pieces of state:
`todos` (an ordered list of `{id, text, completed}` records), `inputValue`
(the new-task box), `editingId` (the record being edited, or null) and
`editText` (the edit box's scratch text). Its handlers create, toggle,
delete and edit tasks against a remote collection over HTTP. Toggle, delete
and save-edit are optimistic: they change the local list at once, then keep
the change if the request succeeds. If it fails, they roll back from values
captured when the handler ran. Create changes nothing until the server
returns the saved record.

Files:

- `js_string.dfy` (module `JsString`): `String.prototype.trim` with the
  ECMAScript white-space and line-terminator set (sections 12.2, 12.3 and
  22.1.3.32 of ECMA-262). It also proves that `!s.trim()` holds exactly for
  all-white-space strings.
- `todo_list.dfy` (module `TodoList`): the `Todo` record and the three list
  transforms the handlers use. `SetCompleted` and `SetText` model the two
  `todos.map(...)` rewrites; `RemoveId` models `todos.filter(...)`. The file
  also holds lemmas about rollback, order and ids.
- `home.dfy` (module `Home`): the class `TodoStore` with the four state
  slots. Each request-making handler is split at its `await`. `BeginX` does
  the validation and the optimistic change and returns a `Pending` ticket
  holding the captured values. `SettleX` runs the continuation for an
  `Outcome`: `Ok`, `NotOk` (a response without `ok`) or `Threw` (an
  exception). The composed handlers (`HandleAddTask`, `ToggleTodo`,
  `DeleteTodo`, `SaveEdit`) run the two halves back to back. Because tickets
  can be settled in any order, the model also covers requests in flight
  together. The `Scenarios` method shows a failed delete whose snapshot also
  undoes a toggle that was issued later and succeeded.

Points where the code behaves in ways a reader might not expect, all
modelled as written:

- A create that gets a non-ok response shows no notification and changes
  nothing (`Silent`). Only an exception shows an error.
- A failed load leaves the list as it was. The load runs once on mount, so
  that is normally the initial empty list. The code never resets the list to
  empty.
- `!editingId` is also true when `editingId` is the empty string, so
  `saveEdit` does nothing in that case too (`NoActiveEdit`).
- The edited text is stored as typed, not trimmed.
- A failed delete or save-edit restores the snapshot exactly, as the same
  list in the same order.
- A failed toggle rewrites the list the handler saw, with the flag put back
  to `currentStatus`. That equals the pre-toggle list exactly when
  `currentStatus` was the flag of the record(s) with that id
  (`SetCompletedSame`).

## Model

| member | source | states |
|---|---|---|
| `JsString.TrimStart` | app/page.tsx:42 | the result is a suffix of the input, the dropped prefix is all white space, and the result does not start with white space |
| `JsString.TrimEnd` | app/page.tsx:151 | the result is a prefix of the input, the dropped suffix is all white space, and the result does not end with white space |
| `JsString.IsWhiteSpace` | app/page.tsx:42 | the characters `.trim()` removes, ECMAScript's white space and line terminators; each is a single UTF-16 code unit |
| `JsString.Trim` | app/page.tsx:42 | `s.trim()` is `s[i..j]` where everything before `i` and after `j` is white space, and when non-empty it neither starts nor ends with white space |
| `JsString.TrimEmptyIffBlank` | app/page.tsx:42-45 | `!s.trim()` holds if and only if every character of `s` is white space |
| `TodoList.SetCompleted` | app/page.tsx:77-81 | the map keeps length, order, every id and text; each record with the id gets the given flag; every other record is unchanged |
| `TodoList.SetText` | app/page.tsx:161-165 | the map keeps length, order, every id and flag; each record with the id gets the given text, untrimmed; every other record is unchanged |
| `TodoList.RemoveId` | app/page.tsx:121 | the filter drops exactly as many records as carry the id; a record is kept if and only if it was in the list and has a different id |
| `TodoList.RemoveIdIsSubsequence` | app/page.tsx:121 | the survivors of the filter keep their relative order |
| `TodoList.RemoveAbsentId` | app/page.tsx:121 | deleting an id that no record carries leaves the list as it was |
| `TodoList.RemoveUniqueId` | app/page.tsx:120-121 | with distinct ids, deleting the id at position k removes exactly that one record |
| `TodoList.SetCompletedTwice` | app/page.tsx:77-81 | two toggles of the same id in a row (the checkbox passes the shown flag as `currentStatus`) leave the flag the second one sets |
| `TodoList.SetCompletedSame` | app/page.tsx:92-112 | the rollback maps the handler's list with `currentStatus`; when every record with that id already has that flag, it gives that list back unchanged |
| `TodoList.ToggleTwiceRestores` | app/page.tsx:77-81 | toggling a record twice, each time with the flag it shows, restores the list |
| `TodoList.SetTextAbsent` | app/page.tsx:161-165 | saving an edit for an id that no record carries leaves the list as it was |
| `TodoList.SetCompletedKeepsIds` | app/page.tsx:77-81 | toggling never changes the sequence of ids, so the ids stay distinct if and only if they were distinct |
| `TodoList.SetTextKeepsIds` | app/page.tsx:161-165 | editing never changes the sequence of ids, so the ids stay distinct if and only if they were distinct |
| `TodoList.RemoveIdKeepsDistinct` | app/page.tsx:121 | deleting keeps distinct ids distinct |
| `TodoList.AppendFreshKeepsDistinct` | app/page.tsx:63 | appending a saved record with a new id keeps the ids distinct |
| `Home.TodoStore.constructor` | app/page.tsx:21-24 | the page starts with an empty list, an empty input, no edit open and empty scratch text |
| `Home.TodoStore.NoActiveEdit` | app/page.tsx:150 | `!editingId` holds for null and for the empty string, the two values JavaScript treats as false, and for no other id |
| `Home.TodoStore.Load` | app/page.tsx:30-39 | the list from the server replaces the local list; after an exception the list is unchanged and an error notice is shown; nothing else is touched |
| `Home.TodoStore.TypeInput` | app/page.tsx:217 | typing sets `inputValue` and nothing else |
| `Home.TodoStore.TypeEditText` | app/page.tsx:251 | typing in the edit box sets `editText` and nothing else |
| `Home.TodoStore.StartEditing` | app/page.tsx:144-147 | always overwrites `editingId` and `editText`, discarding any earlier scratch text; the list is not touched |
| `Home.TodoStore.CancelEdit` | app/page.tsx:254-257 | Escape sets `editingId` to null and `editText` to "" and touches nothing else |
| `Home.TodoStore.BeginAddTask` | app/page.tsx:41-58 | no request is made exactly when the input is blank, and then a warning is shown; otherwise the ticket holds the call-time list and no state changes |
| `Home.TodoStore.SettleAddTask` | app/page.tsx:61-70 | on ok the saved record is appended to the call-time list and the input is cleared; on non-ok or an exception the list and input are unchanged; the notice is success, none or error |
| `Home.TodoStore.HandleAddTask` | app/page.tsx:41-71 | blank input: all state unchanged and a warning; ok: the saved record is appended at the end and the input cleared; otherwise list and input unchanged, with no notice on a non-ok response and an error on an exception; a fresh id keeps ids distinct |
| `Home.TodoStore.BeginToggle` | app/page.tsx:73-90 | the optimistic step sets `!currentStatus` on the records with the id; the ticket holds the call-time list, the id and `currentStatus` |
| `Home.TodoStore.SettleToggle` | app/page.tsx:92-115 | success keeps the current list; non-ok or an exception sets the list to the call-time list with the flag set back to `currentStatus` |
| `Home.TodoStore.ToggleTodo` | app/page.tsx:73-116 | on success the list is the toggled list; on failure it is the rolled-back list, equal to the old list when `currentStatus` matched; ids and their distinctness are unchanged |
| `Home.TodoStore.BeginDelete` | app/page.tsx:118-126 | the optimistic step removes the records with the id; the ticket holds the whole previous list |
| `Home.TodoStore.SettleDelete` | app/page.tsx:128-141 | success keeps the filtered list; non-ok or an exception restores the previous list |
| `Home.TodoStore.DeleteTodo` | app/page.tsx:118-142 | on success the list is the filtered list and a subsequence of the old one; on failure it equals the old list; distinct ids stay distinct |
| `Home.TodoStore.BeginSaveEdit` | app/page.tsx:149-176 | no edit open: nothing changes; blank scratch text: a warning and nothing changes; otherwise the edited record takes the untrimmed text, edit mode is cleared and the ticket holds the snapshot |
| `Home.TodoStore.SettleSaveEdit` | app/page.tsx:178-191 | success keeps the edited list; non-ok or an exception restores the snapshot; edit mode is not reopened |
| `Home.TodoStore.SaveEdit` | app/page.tsx:149-192 | no edit open or blank text: all state unchanged; otherwise edit mode is cleared and the list is the edited list on success or the old list on failure; ids are never changed |

## Left out

- HTTP and JSON: `fetch`, `response.ok` and `response.json()` become the `Outcome` parameter. The record a create returns is the `saved` parameter; the model does not check that its id is new. The request bodies (`{text, completed: false}`, `{completed}`, `{text}`) are not modelled.
- Load: a response whose body is not an array of records cannot be expressed. `Load` takes either a list or an exception.
- Notifications: only which kind of toast fires is modelled (`Notice`). Message text and `console.error` are left out.
- Rendering, styling, images and the `Toaster` are left out. The Enter-key dispatch (app/page.tsx:194-198, 253) is left out because it only calls `handleAddTask` or `saveEdit`.
- React's render timing is not modelled. Each `BeginX` reads the store's current fields, as if the handler's closure came from a render that already shows every earlier update. Two handlers fired from the same stale render are not modelled.
- Strings are sequences of Unicode code points, not UTF-16 code units. Every white-space character `trim` removes is a single code unit, so `Trim` agrees with JavaScript.
