# Task manager core, modelled in Dafny

A command-line to-do application keeps short-lived tasks in memory. Its core
is two small components, modelled here:

- **The task entity** (`task.dfy`, module `Tasks`). `TaskStatus` is a closed
  three-valued enumeration. `Task` is a six-field record: title,
  description, status, id, creation time and last-update time. Building a
  task strips whitespace from the title and the description, then refuses an
  empty title (checked first) and a title longer than 1000 characters.
  Refreshing the timestamp changes `updatedAt` and nothing else.
- **The task store** (`task_store.dfy`, module `TaskStoreService`). It is a
  class with an ordered `seq<Task>` and an auto-increment counter `nextId`
  that starts at 1. Its operations are add, get, get-all, update, delete,
  count, clear and get-by-status. `Valid()` is the store's invariant: ids are
  pairwise distinct, every id lies in `[1, nextId)`, and `nextId >= 1`.
  Every state-changing operation re-establishes it; all but `clear` also
  require it.

`wrappers.dfy` holds `Option` (Python's `None`) and `Result` (a raised
`ValueError`). `scenarios.dfy` holds client methods that replay the unit
tests' scenarios from the contracts alone.

Modelling decisions:

- Timestamps are abstract integers. The caller passes the current instant as
  `now`. `Create` gives both timestamps the same `now`; in Python the two
  `datetime.now` default factories may differ by a few microseconds.
- Python's `str.strip()` is `Trim`. `IsSpace` lists the code points that
  Python's `str.isspace` accepts.
- Tasks are values. `get` and `get_all` return live object references in
  Python; here they return copies. `update` mutates the found object in
  place; here it replaces the element at the found position, and the
  observable results are the same.
- These are helpers: `LeadingSpaces`, `TrailingSpaces`, `SplitThree`,
  `LeadingSpacesOfPadded`, `TrailingSpacesOfPadded`, `IdsDistinct`,
  `IdsBelow`, `NoMatch`, `IsFirstMatch`, `IdSet`, `IdSetSize`, `Range`,
  `SubsetSize`, `FirstMatchExists`, `IsSubsequence`, `Option.GetOr`, and in
  `scenarios.dfy` `NewPending` and `StatusFixture`.

Two behaviours of the source are kept as written:

- `add` never validates. Its docstring says it raises `ValueError`
  (src/services/task_store.py:31-32), but the body (lines 34-37) only stamps
  the id and appends. `TaskStore.Add` has no precondition on the task, and
  `Scenarios.AddStoresUnvalidatedTask` stores a task with an empty title.
- `update` assigns a new title or description as given. It does not strip
  the text and does not re-validate it (src/services/task_store.py:87-90).
  So a stored title can become empty or longer than 1000 characters, as
  `Scenarios.UpdateStoresUnvalidatedTitle` shows.

## Model

| member | source | states |
|---|---|---|
| `Tasks.StatusIsOneOfThree` | src/models/task.py:9-14 | every status is Pending, InProgress or Completed, and the three differ |
| `Tasks.TaskEqualityIsStructural` | src/models/task.py:17-36 | two tasks are equal exactly when all six fields are equal |
| `Tasks.Trim` | src/models/task.py:40-41 | the stripped string is no longer than the input and neither end is whitespace |
| `Tasks.TrimEmptyIffBlank` | src/models/task.py:40-41 | the stripped string is empty exactly when the input is all whitespace |
| `Tasks.TrimDecomposes` | src/models/task.py:40-41 | every string is its all-whitespace prefix, then its strip, then its all-whitespace suffix |
| `Tasks.TrimOfPadded` | src/models/task.py:40-41 | wrapping a string whose ends are not whitespace in any whitespace and stripping gives back exactly that string |
| `Tasks.TrimIdempotent` | src/models/task.py:40-41 | stripping twice is the same as stripping once |
| `Tasks.Validate` | src/models/task.py:44-49 | no error exactly when the title has 1 to 1000 characters; the empty error exactly when it is empty; the too-long error exactly when it exceeds 1000 |
| `Tasks.NewTask` | src/models/task.py:31-49 | fails with EmptyTitle exactly when the title is all whitespace, and with TitleTooLong exactly when the stripped title exceeds 1000 characters; otherwise it succeeds with the stripped title, the stripped description and the other fields as given, and the stored title has 1 to 1000 characters and no surrounding whitespace |
| `Tasks.Create` | src/models/task.py:31-36 | with only a title given, success means description "", status Pending, id 0 and both timestamps equal to now |
| `Tasks.NewTaskIsStable` | src/models/task.py:38-49 | rebuilding a constructed task from its own fields succeeds and gives the same task |
| `Tasks.NewTaskStripsPadding` | src/models/task.py:38-49 | a title padded with whitespace is accepted exactly when its core has at most 1000 characters, and the core is what is stored |
| `Tasks.UpdateTimestamp` | src/models/task.py:51-53 | updatedAt becomes now; createdAt, title, description, status and id are unchanged |
| `Tasks.UpdateTimestampMonotonic` | src/models/task.py:51-53 | with now not before the old updatedAt, createdAt <= updatedAt still holds and updatedAt does not decrease |
| `TaskStoreService.FirstMatchIsOnlyMatch` | src/services/task_store.py:49-52 | with distinct ids, the task a scan stops at is the only one with that id |
| `TaskStoreService.DistinctIdsBound` | src/services/task_store.py:34-35 | distinct ids drawn from [1, bound) number fewer than bound |
| `TaskStoreService.FilterByStatus` | src/services/task_store.py:132 | every kept task has the requested status and is in the list; every listed task with that status is kept |
| `TaskStoreService.FilterAppend` | src/services/task_store.py:132 | filtering a concatenation is concatenating the filtered parts |
| `TaskStoreService.FilterMultiset` | src/services/task_store.py:132 | each matching task is kept as often as it occurs, and every other task is dropped |
| `TaskStoreService.FilterIsSubsequence` | src/services/task_store.py:132 | the filtered list keeps the original order |
| `TaskStoreService.Patch` | src/services/task_store.py:87-94 | each supplied field replaces the old one unchanged, each absent field is kept, updatedAt becomes now, id and createdAt are kept |
| `TaskStoreService.TaskStore.constructor` | src/services/task_store.py:16-19 | a new store is valid, has no tasks and has counter 1 |
| `TaskStoreService.TaskStore.Add` | src/services/task_store.py:21-37 | the task gets the old counter as id, the counter goes up by one, the task is appended after the unchanged prefix, every status query afterwards is the old result plus the new task exactly when its status matches, and the invariant is kept |
| `TaskStoreService.TaskStore.FindIndex` | src/services/task_store.py:49-52 | no index exactly when no task has the id; otherwise the first position with that id |
| `TaskStoreService.TaskStore.Get` | src/services/task_store.py:39-52 | none exactly when no task has the id; otherwise the task at the first position with that id |
| `TaskStoreService.TaskStore.GetAll` | src/services/task_store.py:54-61 | the whole list in insertion order, of length Count() |
| `TaskStoreService.TaskStore.Update` | src/services/task_store.py:63-95 | missing id: none, store unchanged; present id: that one element is replaced by its patched version, order and every other element kept; counter unchanged and invariant kept |
| `TaskStoreService.TaskStore.Delete` | src/services/task_store.py:97-111 | true exactly when some task has the id; then exactly that element is removed, order kept, count down by one and the id no longer present; otherwise the store is unchanged; invariant kept |
| `TaskStoreService.TaskStore.Count` | src/services/task_store.py:113-115 | the number of stored tasks |
| `TaskStoreService.TaskStore.CountBelowNextId` | src/services/task_store.py:113-115 | in a valid store the count is below the counter |
| `TaskStoreService.TaskStore.Clear` | src/services/task_store.py:117-120 | no tasks, counter back to 1, invariant holds |
| `TaskStoreService.TaskStore.GetByStatus` | src/services/task_store.py:122-132 | every result has the status; empty exactly when no stored task has it; results keep list order and hold each matching task as often as it is stored and no other task |
| `Scenarios.AddSequence` | tests/unit/test_task_store.py:37-46 | N adds on a fresh store store the tasks in order with ids 1..N and leave count N |
| `Scenarios.CreateKeepsCleanTitle` | tests/unit/test_task.py:30-38 | a valid title with no surrounding whitespace is accepted and kept as is, with description empty, status Pending, id 0 and both timestamps the given instant |
| `Scenarios.TitleLengthLimit` | tests/unit/test_task.py:82-92 | a title of n copies of a non-whitespace character: refused as empty at 0, accepted with length n from 1 to 1000, refused as too long above 1000 |
| `Scenarios.BlankTitleRejected` | tests/unit/test_task.py:62-70 | a title of spaces only, the empty title included, is refused as empty |
| `Scenarios.EndToEnd` | main.py:176-185 | the store calls behind the add, complete (the `update(status=COMPLETED)` at these lines), list, delete and count commands; add two tasks, complete the first, list, delete the second: ids 1 and 2, statuses Completed and Pending, delete succeeds, count 1 |
| `Scenarios.UpdateStoresUnvalidatedTitle` | src/services/task_store.py:87-88 | an update to the empty title is stored, leaving an invalid title |
| `Scenarios.AddStoresUnvalidatedTask` | src/services/task_store.py:34-37 | a task with an empty title is stored by add with id 1 |
| `Scenarios.ClearRestartsIds` | tests/unit/test_task_store.py:220-227 | after clear the next add gets id 1 again |
| `Scenarios.DeleteKeepsOthers` | tests/unit/test_task_store.py:169-178 | after deleting task 1, get(1) is none, task 2 is unchanged and the count is 1 |
| `Scenarios.PendingByStatus` | tests/unit/test_task_store.py:233-242 | the query for Pending returns two tasks, all pending: both pending tasks and not the completed one |
| `Scenarios.NoMatchByStatus` | tests/unit/test_task_store.py:244-250 | a status no stored task has yields the empty list |

## Left out

- `main.py` as a whole: the read-eval loop, prompts and confirmations, ANSI
  colours, argument tokenisation, help text and display truncation. Its
  extra 100-character check on titles belongs to the command dispatcher.
- The wall clock (`datetime.now`): timestamps are the integer parameter `now`.
  So the tests' strict "updated_at increased" checks are not modelled; the
  model proves only that updatedAt does not go backwards when the caller's
  clock does not.
- `__repr__`: display formatting only.
- The enumeration's string values `"pending"`, `"in_progress"` and
  `"completed"` (src/models/task.py:12-14): they serve display and
  `__repr__` only, so `TaskStatus` has bare constructors.
- Object identity and aliasing: returned tasks are copies, so writes to a
  returned task are not visible in the store, and the same object cannot be
  added twice.
- Python strings may hold lone surrogate code points. Dafny strings cannot.
