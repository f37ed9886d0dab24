# User management CRUD app — Dafny model

The repository is a small user-management application: a NestJS backend whose
`AppController` exposes five routes over a `users` table, and a React `App`
component that lists, adds, edits, saves, cancels and deletes users through
those routes. This project models the two parts that carry logic:

- **Backend** (`backend.dfy`): each route of `AppController` as a pure function
  from the injected service to the JSON envelope it returns. The service is a
  datatype of functions (`AppService`), so what a route passes to the service
  (for example the coerced `+id`) and how the call settled (`Ok` with its
  result, or `Err` with the thrown message) both appear in the contracts. An
  `Envelope` records `success` and, for each of `data`, `message` and `error`,
  whether the key is present.
- **Frontend** (`user_list.dfy`, `frontend.dfy`): the `App` component as a
  class with its five state cells (`users`, `editingId`, `formData`, `loading`,
  `error`), one method per handler, and the list expressions inside the
  handlers (`Math.max` over ids, `map` replacing rows by id, `filter` removing
  rows by id, appending the draft) as functions with lemmas. How each network
  call settles is a parameter of the handler; `HandleSave` returns the request
  it issues, so "no request" and "create vs. update" are observable.

The heuristics of the component are proved as they are written, not fixed:
Save creates whenever the edited id is at least the largest id in the list, so
editing the row with the largest id creates a new user (`CreatePathIffLargest`,
`EditLargestThenSaveCreates`); Cancel only discards rows whose id exceeds
`1000000000000`, so a draft made by Add with small ids survives a Cancel
(`AddThenCancelKeepsDraft`). `HandleDelete` filters the rows out whenever the
delete call resolves: like the code, it never reads the body's `success`, so a
`{success: false}` body from the server still removes the row locally.

`wrappers.dfy` holds the shared `Option` and `Outcome` datatypes.

## Model

| member | source | states |
|---|---|---|
| `Backend.First` | backend/src/app.controller.ts:34 | `result[0]` is present exactly when the result is non-empty, and is then its first row |
| `Backend.GetHello` | backend/src/app.controller.ts:8-11 | GET / returns the service's greeting unchanged |
| `Backend.GetAllUsers` | backend/src/app.controller.ts:13-27 | envelope is uniform; success iff the service did not throw; on success `data` is the service's rows unchanged; a throw gives exactly `{success:false, error:message}` |
| `Backend.CreateUser` | backend/src/app.controller.ts:28-42 | envelope is uniform; success iff the service did not throw; `data` is the first returned row (absent for an empty result); a throw gives exactly `{success:false, error:message}` |
| `Backend.UpdateUser` | backend/src/app.controller.ts:44-64 | the service is called with the coerced id; success iff no throw and a non-empty result, with `data` the first row; an empty result gives exactly `{success:false, error:'User not found'}`; a throw gives `{success:false, error:message}` |
| `Backend.DeleteUser` | backend/src/app.controller.ts:66-80 | the service is called with the coerced id; a completed call gives exactly `{success:true, message:'User deleted successfully'}`; a throw gives `{success:false, error:message}` |
| `Backend.DeleteIgnoresRowsRemoved` | backend/src/app.controller.ts:68-73 | the delete envelope is the same whatever id was asked for and however many rows were removed |
| `Backend.ServiceErrorsBecomeFailures` | backend/src/app.controller.ts:14-80 | no route lets a service error escape: on each route a thrown message becomes `{success:false, error:message}` |
| `UserList.MaxId` | frontend/src/App.tsx:112 | 0 for an empty list; otherwise an upper bound on every id that is itself the id of some row |
| `UserList.NextId` | frontend/src/App.tsx:112-114 | the draft id is strictly greater than every existing id, and 1 for an empty list |
| `UserList.Draft` | frontend/src/App.tsx:113-118 | the draft row has empty name, email and password and an id above every existing id, so it is not already in the list |
| `UserList.ReplaceById` | frontend/src/App.tsx:160-162 | length and order are kept; each row whose id matches becomes the returned record, every other row is unchanged |
| `UserList.RemoveById` | frontend/src/App.tsx:138 | a row survives exactly when it was in the list and its id differs; the list never grows |
| `UserList.AppendDraftKeepsUniqueIds` | frontend/src/App.tsx:112-120 | appending the draft to a list with unique ids keeps ids unique |
| `UserList.DraftIsLargest` | frontend/src/App.tsx:112-120 | once appended, the draft's id is the largest id in the list, so Save takes the create path for it |
| `UserList.ReplaceDraft` | frontend/src/App.tsx:160-162 | for any list, replacing by the draft's id puts the returned record in the draft's place at the end and leaves every earlier row unchanged |
| `UserList.IsNewUser` | frontend/src/App.tsx:152-153 | Save's create test `editingId >= maxId`: for a non-empty list it holds exactly when no row has a larger id, for an empty list exactly when the id is at least 0 |
| `UserList.CreatePathIffLargest` | frontend/src/App.tsx:152-155 | for an existing row, Save's create test holds exactly when no row has a larger id |
| `UserList.OnlyLargestTakesCreatePath` | frontend/src/App.tsx:152-155 | with unique ids, when one row takes the create path every other row takes the update path |
| `UserList.ReplaceInPlace` | frontend/src/App.tsx:168-170 | with unique ids, replacing by a row's id puts the record in that row's own position and changes nothing else |
| `UserList.ReplaceKeepsUniqueIds` | frontend/src/App.tsx:160-162 | replacing keeps ids unique when the record keeps the replaced id or has a fresh one |
| `UserList.RemoveByIdAppend` | frontend/src/App.tsx:138 | filtering distributes over concatenation, so surviving rows keep their relative order |
| `UserList.RemoveAbsentId` | frontend/src/App.tsx:188 | filtering out an id that no row has returns the list unchanged |
| `UserList.RemoveKeepsUniqueIds` | frontend/src/App.tsx:138 | filtering keeps ids unique |
| `UserList.RemoveCount` | frontend/src/App.tsx:138 | with unique ids, filtering removes exactly one row if the id is present and none otherwise |
| `Frontend.SaveAllowed` | frontend/src/App.tsx:149 | Save's guard: an edited id that is neither null nor 0, and a non-empty name and email in the form |
| `Frontend.CancelDiscards` | frontend/src/App.tsx:187 | Cancel's guard holds exactly when the edited id exceeds 1000000000000 (the truthiness test is implied by it) |
| `Frontend.SetField` | frontend/src/App.tsx:194-199 | the named form field takes the value and every other field, the id included, is unchanged |
| `Frontend.FetchError` | frontend/src/App.tsx:38-44 | a thrown message is shown as is; a failed body shows its `error`, or the fixed fallback when that is empty, never an empty message |
| `Frontend.App.constructor` | frontend/src/App.tsx:12-21 | initial state: no rows, not editing, blank form, loading, no error |
| `Frontend.App.FetchUsers` | frontend/src/App.tsx:28-49 | `loading` is false on every path; a successful body replaces `users` with `data` and clears the error; otherwise `users` is unchanged and the error is set; edit state untouched |
| `Frontend.App.HandleAdd` | frontend/src/App.tsx:109-127 | clears the error; appends exactly the draft row at the end, earlier rows unchanged; edits the draft; keeps ids unique |
| `Frontend.App.HandleEdit` | frontend/src/App.tsx:129-132 | edits the given row and seeds the form with it; `users` untouched |
| `Frontend.App.HandleDelete` | frontend/src/App.tsx:134-146 | a resolved call removes every row with the id, keeps the rest in order and stops editing only that id; a thrown call changes only the error; ids stay unique |
| `Frontend.App.HandleSave` | frontend/src/App.tsx:148-184 | incomplete form: no request, error 'Please fill all fields', nothing else changes; otherwise a create request iff the edited id is at least the largest id, else an update of the form; a resolved call replaces matching rows when the body reports success and always leaves edit mode with a blank form; a thrown call keeps the list and edit state and shows the message |
| `Frontend.App.HandleCancel` | frontend/src/App.tsx:186-192 | removes the edited rows only when the edited id exceeds 1000000000000; always leaves edit mode with a blank form; ids stay unique |
| `Frontend.App.HandleInputChange` | frontend/src/App.tsx:194-199 | only the named form field changes; `users` untouched |
| `Frontend.AddThenCancelKeepsDraft` | frontend/src/App.tsx:186-192 | with ids below the threshold, Add followed by Cancel leaves the draft row in the list |
| `Frontend.EditLargestThenSaveCreates` | frontend/src/App.tsx:152-157 | editing the row with the largest id and saving issues a create request, not an update |
| `Frontend.AddFillSave` | frontend/src/App.tsx:148-175 | for any list whose draft id is not 0, Add, filling name and email, then Save issues exactly one create request, and a successful reply replaces the draft in its own position |

## Left out

- Rendering (the JSX, the spinner, the error banner) and the `useEffect` mount hook: user interface, not state logic.
- The `fetch` calls, JSON parsing and `response.ok` checks inside `fetchUsers`, `handleCreateUser`, `handleUpdateUser` and `handleDeleteUser`: network I/O. Each handler instead receives how its call settled (`Outcome`), and a non-ok response is one of the ways a call throws.
- The `handleRefresh()` fired after a create or update: it starts an overlapping fetch whose completion races with Save's own update of `users`. Concurrency is not modelled; each handler is one atomic transition over the state it read when it started.
- The fallback messages for a thrown value that is not an `Error` ('Failed to fetch users', 'Failed to delete user', 'Failed to save user' in the `instanceof` tests): every throw on these paths is an `Error`, so the thrown message is always used.
- The catch block of `handleAdd` ('Failed to add new user'): nothing in its body can throw in the model.
- `handleInputChange` with the `id` field: it would store a string in a numeric field, and the page only passes `name` and `email`.
- The intermediate `setError(null)` render before an awaited call: only the state after the handler completes is modelled.
- `backend/src/app.service.ts` and the database: the service's results are parameters, and their types are modelling choices. The create result is modelled as a list of rows; the create query has no `returning()`, so what the driver actually resolves with is not a list of rows, and indexing it gives `undefined`, which the model covers only through its empty-list case. The delete result is modelled as a row count that the controller ignores; the real value is whatever the driver resolves with.
- The backend assumes every thrown value is an `Error` with a string `message` (`Outcome.Err`). A thrown value that is not an `Error` gives `{success: false}` with no `error` key, and a thrown `null` or `undefined` makes `error.message` itself throw inside the catch, so that error escapes the route.
- The `console.error` logging in the frontend's catch blocks: output only, it changes no state.
- The `password` key: the server's rows have no password, so a record returned by the server and placed in the client's list has it `undefined`; the model's `Reply` always carries a full client row.
- A create whose result is empty gives `data: undefined`, which the client would put into its list; the client model's `Reply` always carries a record.
- `+id` on a non-numeric path parameter (`NaN`) and JavaScript number semantics generally: ids are unbounded integers and the route receives the already coerced integer.
- HTTP status codes, CORS, the listening port and database configuration (`main.ts`, `drizzle.config.js`), and the test configuration.
