# Task store service: a Dafny model

This project models `TaskManagerServices`, the service class of a small task-management
backend. The service runs LINQ queries and single-row mutations against a database
context with three tables:

- **tasks**: id, title, description, done flag, creation time, optional finishing time,
  category id, owning user id;
- **categories**: id and name;
- **users**: only their ids matter here.

The model has four modules:

- `Wrappers` (`wrappers.dfy`) holds `Option`. The model uses it for nullable columns and for
  the `null` that `FirstOrDefault` returns.
- `Linq` (`linq.dfy`) holds the three LINQ operators the service uses, over tables stored as
  sequences of rows. `Where` filters, `Select` projects, and `FirstIndex` finds the row that
  `FirstOrDefault` returns. Each operator's contract says what it computes: the multiplicity of
  every row, the pointwise image, or the first match. Two lemmas go with them:
  `SelectMembership` and `WherePartition` (filtering by a predicate and by its negation splits
  the table).
- `TaskEntities` (`task_entities.dfy`) holds the rows: `TaskEntity` and `CategorieTask`. It
  also holds the shapes the service returns: `TaskView` (the anonymous object of the list
  queries) and `TaskDetails` (the reduced record of `GetById`). `Response` stands for the HTTP
  outcome: `Ok` (200), `NotFound` (404), `BadRequest` (400) and `Internal` (500). The module
  also has the category-name lookup, the table invariants and the lemmas showing that
  filtering, projecting, appending, updating and removing keep the rows in key order.
- `Services` (`task_manager_services.dfy`) holds the class `TaskManagerServices`:
  - The task table is a `seq` field that the mutations reassign. Categories and users are
    `const` fields, because this service only reads them.
  - `nextId` is the next key the autoincrement column hands out. Keys are never reused, so
    every row's key is below `nextId`. Rows are in storage order, which is increasing key
    order. `Valid()` states both facts.
  - The five queries are functions that read the object. The five mutations are methods
    with `modifies this`. Each mutation names the row it changes and every field of it that
    changes, says that nothing else changes, and gives the result for a missing key. It also
    keeps the "done exactly when a finishing time is set" property of the task table.
  - Two client methods, `CompleteScenario` and `RefusalScenario`, use only these contracts.
    The first creates a task, reads it back, completes it, sees it move from the to-do list
    to the done list, and deletes it. The second checks that the refused requests change
    nothing.

External inputs are parameters:

- the clock (`DateTime.Now`) is the `now` argument of the operations that read it;
- the store's autoincrement key is the `nextId` field;
- the tables the database context would load come in through the constructor.

Two behaviours of the code look unintended; the model keeps them as written:

- **Null model in `InsertTask`.** Line 116 reads `model.CategorieTaskId` before line 118
  checks `model == null`. A null model therefore throws, and the handler at lines 139-145
  turns that into a 500. The model returns `Internal` in this case, not `BadRequest`.
- **`AsignTask` adds a row.** It never updates an existing task, and it does not check that
  the category exists. Missing keys in `DoneTask` and unknown users in `AsignTask` produce
  `BadRequest`, not `NotFound`. The model keeps all of this as it is.

## Model

| member | source | states |
|---|---|---|
| `Linq.Where` | Services/TaskManagerServices.cs:18-19 | the filtered rows are exactly the rows satisfying the predicate, each as often as in the table (multiset equality pointwise), never more rows than the table |
| `Linq.Select` | Services/TaskManagerServices.cs:20-32 | the projection has one entry per row, at the same position, equal to the row's image |
| `Linq.FirstIndex` | Services/TaskManagerServices.cs:97 | `FirstOrDefault` yields null exactly when no row matches; otherwise it yields a matching row with no matching row before it |
| `Linq.SelectMembership` | Services/TaskManagerServices.cs:58-71 | an entry is in a projected list exactly when it is the image of some row of the table |
| `Linq.WherePartition` | Services/TaskManagerServices.cs:18-39 | filtering by `Done == false` and by `Done == true` splits the table: the two multisets add up to the table's, and so do their lengths |
| `TaskEntities.CategoryName` | Services/TaskManagerServices.cs:27-30 | the category name of a list entry is null when no category has the task's category id, and otherwise the name of the first category with that id |
| `TaskEntities.WhereKeepsIdOrder` | Services/TaskManagerServices.cs:77-78 | filtering a key-ordered table keeps it key-ordered, so no task appears twice in a filtered list |
| `TaskEntities.ProjectionKeepsIdOrder` | Services/TaskManagerServices.cs:20-24 | the entries of a projected key-ordered table carry the rows' ids unchanged and stay in increasing `TaskId` order |
| `TaskEntities.ProjectionMembership` | Services/TaskManagerServices.cs:20-31 | an entry is in the list exactly when it is the projection (id, title, description, done, creation time, category name) of some task in the filtered table |
| `TaskEntities.AppendKeepsIdOrder` | Services/TaskManagerServices.cs:134 | adding a row whose key exceeds every existing key keeps the table key-ordered |
| `TaskEntities.UpdateKeepsIdOrder` | Services/TaskManagerServices.cs:154-155 | rewriting one row without touching its key keeps the table key-ordered, and introduces no row other than the rewritten one |
| `TaskEntities.RemoveKeepsIdOrder` | Services/TaskManagerServices.cs:167 | removing one row keeps the others in key order, and no remaining row carries the removed key |
| `Services.TaskManagerServices.constructor` | Services/TaskManagerServices.cs:11-14 | the service starts over the tables it is given, which must be key-ordered with every key below the next autoincrement value |
| `Services.TaskManagerServices.GetTasksToDo` | Services/TaskManagerServices.cs:16-34 | an entry is listed exactly when it is the projection of a task with `Done == false`; entries are in increasing task-id order, so each pending task appears once |
| `Services.TaskManagerServices.GetTaskDone` | Services/TaskManagerServices.cs:36-54 | an entry is listed exactly when it is the projection of a task with `Done == true`; entries are in increasing task-id order, so each done task appears once |
| `Services.TaskManagerServices.GetAllTasks` | Services/TaskManagerServices.cs:56-73 | one entry per task, in storage order, each the task's projection with its category name |
| `Services.TaskManagerServices.GetTasksByUser` | Services/TaskManagerServices.cs:75-93 | an entry is listed exactly when it is the projection of a task whose `UserId` is the given user; each such task appears once, in id order |
| `Services.TaskManagerServices.GetById` | Services/TaskManagerServices.cs:95-110 | NotFound exactly when no task has the id; otherwise Ok with that task's title, description, creation time and done flag only; no other outcome |
| `Services.TaskManagerServices.ToDoAndDoneCoverAll` | Services/TaskManagerServices.cs:16-73 | every entry of the full list is in the to-do list or the done list, and no entry is in both |
| `Services.TaskManagerServices.ToDoAndDoneSizes` | Services/TaskManagerServices.cs:16-73 | the lengths of the to-do and done lists add up to the length of the full list |
| `Services.TaskManagerServices.InsertTask` | Services/TaskManagerServices.cs:112-146 | null model: Internal and nothing changes. Unknown category: BadRequest and nothing changes. Otherwise exactly one row is appended, with a fresh key, the model's title, description and category, `Done == false`, created `now`, no finishing time and the given user, and that key is returned. GetById then finds the row. Done-iff-finished is kept |
| `Services.TaskManagerServices.EditTask` | Services/TaskManagerServices.cs:148-160 | missing id: NotFound and nothing changes. Otherwise only the title and description of that row become the model's; every other field and row keeps its value, the id is returned, GetById shows the new title and description, and done-iff-finished is kept |
| `Services.TaskManagerServices.DeleteTask` | Services/TaskManagerServices.cs:161-171 | missing id: NotFound and nothing changes. Otherwise exactly that row is removed and the others keep their order. Either way, GetById(id) is NotFound afterwards |
| `Services.TaskManagerServices.DoneTask` | Services/TaskManagerServices.cs:172-185 | missing id: BadRequest, not NotFound, and nothing changes. Otherwise that row alone gets `Done == true` and finishing time `now`, and the updated row is returned. It then shows in the done list and is absent from the to-do list. Done-iff-finished is kept |
| `Services.TaskManagerServices.AsignTask` | Services/TaskManagerServices.cs:186-207 | unknown user: BadRequest and nothing changes. Otherwise a brand-new row is appended, with a fresh key, the model's title, description, category and user, `Done == false`, created `now` and no finishing time; no category check is made. The new row is returned, and it shows in that user's list and in the to-do list |

## Left out

- The store's I/O is not modelled: the Entity Framework context, `SaveChanges`, change tracking, `Update` and the SQL the queries turn into. The tables are plain sequences read and replaced in one step.
- Persistence faults are not modelled. The `catch` in `InsertTask` (lines 139-145) is reached in the model only by the null-model dereference. The console logging in that handler is left out.
- Foreign-key checks by the store are not modelled. If the database enforces them, `SaveChanges` would reject an unknown `userId` in `InsertTask` (caught at lines 139-145, so a 500) and an unknown category in `AsignTask` (uncaught). The model returns `Ok` in both cases. Whether these constraints exist cannot be seen: the entity and context definitions are not part of this model.
- `EditTask` and `AsignTask` take non-null models. With a null model they throw an uncaught exception: `EditTask` only when the id exists (it returns NotFound first otherwise), and `AsignTask` always. The framework turns that exception into an error response, which is not part of this model.
- The `Category` navigation property that `InsertTask` and `AsignTask` attach is left out. It repeats what `CategorieTaskId` already says.
- The property types of `TaskEntity` are not part of this model. Keys are taken to be `int`, and titles, descriptions, category names and the finishing time to be nullable.
- The shape of `GetById`'s reply is simplified. The source returns a `TaskEntity` whose other properties keep their defaults; the model returns only the four properties that are copied.
- `DateTime` is a plain integer that the model only stores: the clock is read outside the model and passed in as `now`.
- `IActionResult` plumbing and JSON serialization are replaced by the `Response` datatype.
- Concurrency between requests is not modelled: every operation runs alone.
- Migrations/20230510160948_TodoDatabasePlus.cs is not part of this model: it only creates a table through the migration builder, and that table lacks the finishing-time, category and user columns the service uses.
