# Todo service model

A Dafny model of the todo persistence and authorization service of the
task-tracking application: the six Convex handlers of `src/convex/todos.ts`
over the single `todos` table.

- `getTodos` lists the caller's documents through the `by_user_id` index, newest first.
- `getTodosByStatus` lists the caller's documents with a given `completed` flag through the
  `by_user_and_completed` index, newest first.
- `createTodo` inserts a pending document owned by the caller and returns its id.
- `updateTodo`, `deleteTodo` and `toggleTodo` check the caller's identity, then that the
  document exists, then that the caller owns it, and only then patch or delete it.

Everything is in one module, `Todos` (`todos.dfy`):

- The table is a class `Store` with a field `todos: map<TodoId, Todo>` and two counters:
  `nextId` for fresh document ids and `clock` for creation times. Its invariant `Valid()`
  says that every document is stored under its own id, that all ids and creation times
  lie below the counters, and that a larger id means a later creation time.
- The two queries are functions of the store. They read the table through `IndexScan`,
  which walks the ids downward and keeps the documents in the index's equality range.
  Because creation time grows with the id, this is the index order by descending
  `_creationTime`.
- The four mutations are methods that modify the `todos` map. Each says exactly what the
  new table is, and that a failed call changes nothing.
- `getAuthUserId(ctx)` becomes an explicit `caller: Option<UserId>` parameter. The thrown
  errors become the values `NotAuthenticated`, `NotFound` and `NotAuthorized`, carried in
  `Result<T>` for values and in `Outcome` for the mutations that return nothing.
- The identity, existence and ownership checks, which the source repeats in three
  handlers, are the one function `Authorize`.

Two behaviours of the service worth stating, since one might expect otherwise:

- `createTodo` accepts any string as a title; only the form trims and rejects empty
  titles. `CreateTodo` therefore stores any title.
- `updateTodo` and `toggleTodo` return the result of `ctx.db.patch`, which is no record.
  The model returns `Done`.

## Model

| member | source | states |
|---|---|---|
| `Todos.Store.GetTodos` | src/convex/todos.ts:6-19 | With no caller it fails with NotAuthenticated. Otherwise it returns exactly the stored documents whose owner is the caller, in strictly descending creation time. |
| `Todos.Store.GetTodosByStatus` | src/convex/todos.ts:23-38 | With no caller it fails with NotAuthenticated. Otherwise it returns exactly the caller's stored documents whose `completed` equals the argument, in strictly descending creation time. |
| `Todos.IndexScan` | src/convex/todos.ts:14-18 | An index scan returns a document exactly when it is stored under its id, its id lies below the bound, and it is in the index's equality range (owner, and status when given). |
| `Todos.ScanIdsDescending` | src/convex/todos.ts:17 | A scan lists strictly descending ids, so it holds no document twice. |
| `Todos.IdOrderIsTimeOrder` | src/convex/todos.ts:17 | Under the table invariant, a list of stored documents with descending ids is in strictly descending creation time. |
| `Todos.ScanByStatus` | src/convex/todos.ts:31-37 | The composite-index scan for status `c` equals the owner-index scan filtered to `completed == c`, in the same order. |
| `Todos.StatusSplit` | src/components/todos/TodoStats.tsx:15-34 | Filtering a list by `completed == true` and by `completed == false` splits it: the two multisets add up to the list's, and the two lengths add up to its length. |
| `Todos.StatsPartition` | src/components/todos/TodoStats.tsx:7-34 | For any valid store and caller, the completed and pending views are the full view filtered by status. Together they hold each of its documents exactly once, so Completed + Pending = Total. |
| `Todos.Store.CreateTodo` | src/convex/todos.ts:42-63 | With no caller it fails with NotAuthenticated and changes nothing. Otherwise it adds exactly one document under an id never issued before (at least the old `nextId`, below the new one), owned by the caller, with `completed = false` and the given title, description, priority and due date. It is newer than every existing document and now heads the caller's full and pending views. The caller's completed view and every other user's view are unchanged. |
| `Todos.ScanInsert` | src/convex/todos.ts:55-62 | Inserting a document under an id above every key puts it at the head of each scan whose range it is in, and leaves every other scan unchanged. |
| `Todos.Authorize` | src/convex/todos.ts:77-89 | No caller gives NotAuthenticated. A missing id then gives NotFound. A document owned by someone else then gives NotAuthorized. Otherwise it returns the stored document. |
| `Todos.Store.UpdateTodo` | src/convex/todos.ts:67-93 | It fails exactly when Authorize fails, with the same error, and then changes nothing. On success only that document changes: the supplied fields are patched in, and id, owner and creation time stay. |
| `Todos.Patched` | src/convex/todos.ts:91-92 | A patch never changes a document's id, owner or creation time, and an empty patch changes nothing. |
| `Todos.PatchIdempotent` | src/convex/todos.ts:91-92 | Applying the same patch twice gives the same document as applying it once. |
| `Todos.UpdateTwice` | src/convex/todos.ts:91-92 | Two identical updates return the same outcome and leave the table as one update does. |
| `Todos.Store.DeleteTodo` | src/convex/todos.ts:97-115 | It fails exactly when Authorize fails, with the same error, and then changes nothing. On success it removes exactly that id, and every user's view loses that document and keeps the order of the rest. |
| `Todos.ScanRemove` | src/convex/todos.ts:114 | Removing one document removes it from every scan and keeps the rest in the same order. |
| `Todos.Store.ToggleTodo` | src/convex/todos.ts:119-137 | It fails exactly when Authorize fails, with the same error, and then changes nothing. On success it negates that document's `completed` and changes nothing else. |
| `Todos.ToggleInvolution` | src/convex/todos.ts:136 | The toggle patch changes only `completed`, and applying it twice gives back the document. |
| `Todos.ToggleTwice` | src/convex/todos.ts:136 | Two toggles of the same id by the same caller return the same outcome and restore the table. |
| `Todos.StaleIdNotFound` | src/convex/todos.ts:127-130 | After create, delete and a second create, the two ids differ and toggling the deleted id fails with NotFound. |
| `Todos.MutableIffListed` | src/convex/todos.ts:87-89 | The caller passes the checks for an id exactly when the caller's own listing shows the document stored under it. |

## Left out

- Title validation: the trimming and the rejection of empty titles live only in the form
  (src/components/todos/TodoForm.tsx). The service stores any title, so the model has no
  InvalidArgument error.
- The "medium" priority default: it is set only by the form. The service requires a priority.
- The user interface (pages, form, item, stats widget): presentation, animation, toasts and
  hook subscriptions. The stats widget's only logic, counting three query results, is
  covered by `StatsPartition`.
- `getAuthUserId` and the authentication library: a foreign call, replaced by the explicit
  `caller` parameter.
- The Convex engine: index maintenance, how `_id` and `_creationTime` are assigned, async
  execution, reactive queries, transactions and concurrency. Each handler is one atomic
  step on the map, and fresh ids and creation times come from two increasing counters.
  Store failures are not modelled.
- UserId and TodoId are natural numbers standing for Convex's opaque string ids.
- `dueDate` is an opaque optional integer. The source's JavaScript number, and the date
  parsing and formatting around it, are not modelled.
- Clearing optional fields: a Convex argument passed as `undefined` is dropped, so
  `updateTodo` cannot remove a description or due date. An absent field in `Patch` keeps
  its value, and the model offers no way to clear one either.
