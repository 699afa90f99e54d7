# Task list: in-memory store and local record cache

This project models, in Dafny, the two pieces of task-list logic of a small
offline-first to-do application:

- the **task store** (`src/stores/todoStore.js`), a Pinia store holding an
  ordered list of tasks (`id`, `text`, `done`, `createdAt`), three derived
  views (`remaining`, `activeTasks`, `completedTasks`) and the actions
  `init`, `persist`, `addTask`, `toggleTask`, `deleteTask` and
  `clearCompleted`, which mirror every change into one browser local-storage
  slot;
- the **local cache** (`src/utils/db.js`), an IndexedDB object store keyed
  by each record's `id`, whose writes all pass through `sanitizeTodo`, with
  `saveTodo`, `saveTodos`, `loadTodos`, `loadTodo`, `deleteTodo` and
  `clearTodos`.

The two pieces are independent: the store persists to local storage, not to
the cache.

Files and modules:

| file | module | what it holds |
|---|---|---|
| `wrappers.dfy` | `Wrappers` | `Option`, `Result`, `Outcome` |
| `sequences.dfy` | `Sequences` | `Array.prototype.filter` as `Filter`, with its laws |
| `todo_store.dfy` | `TodoStore` | `Task`, the getters, `find`, and class `Store` with the actions |
| `js_values.dfy` | `JsValues` | JavaScript values, truthiness, plain objects as maps |
| `idb_keys.dfy` | `IdbKeys` | which values are IndexedDB keys, the key order, key ranges and queries |
| `todo_db.dfy` | `TodoDb` | `sanitizeTodo`, the store operations as functions, and class `LocalCache` |

Modelling choices:

- The store is a class with a `todos: seq<Task>` field and a `storage:
  Option<seq<Task>>` field for the slot `'todo-vue-tasks'`. `None` means
  `getItem` returns `null`. JSON serialisation is taken as the identity.
- The clock is a parameter. `addTask` takes `now` (the `Date.now()` reading,
  also the new id) and `nowIso` (the `toISOString()` reading). Every cache
  write takes the ISO reading that `sanitizeTodo` would use; `saveTodos`
  takes one reading per element, since `sanitizeTodo` reads the clock at
  most once per call (only when `createdAt` is falsy).
- A cached record is a plain object, a `map<string, JsValue>`. A missing
  property reads as `undefined`. `||` and `!!` follow JavaScript's ToBoolean.
  `Obj` is a plain object or array; `Func` is a function, a symbol or any
  other value the structured clone algorithm refuses (an `IDBKeyRange`
  object among them).
- The object store is a `map<Key, Record>`; every call is applied atomically.
  A cache method returns `Ok`/`Pass` when its promise would resolve; `saveTodo`
  resolves with the key of the stored record. It returns `Err`/`Fail` with the
  error the promise would reject with.
- `put` first takes a structured clone of the sanitized record. A copied
  property holding a `Func` makes it throw `DataCloneError`. It then reads
  the key from `id`, and a value that is not a valid key makes it throw
  `DataError`. Either way nothing is written. In `saveTodos` that throw
  ends the loop; the earlier `put` requests have already completed, and the
  transaction commits them. So the records before the first bad one stay
  written (`SaveAllStopsAtFirstInvalid`).
- `get` and `delete` take a query: a value read as a key (`DataError` when it
  is not one), or an `IDBKeyRange`. `get` of a range gives the record with the
  smallest key in it; `delete` of a range removes every record in it.
- `getAll` yields records in ascending key order. `LoadTodos` models that
  ordered walk as a loop that takes the smallest remaining key at each step.
- The cached record's remote-record identifier is the property `frappe_id`.
- `Date.now()` ids can collide. For that reason the add-then-delete property
  is stated only for an id that no task in the list carries.

## Model

| member | source | states |
|---|---|---|
| `Sequences.Filter` | src/stores/todoStore.js:8-10 | the result keeps exactly the elements that satisfy the predicate, and is no longer than the input |
| `Sequences.FilterConcat` | src/stores/todoStore.js:9-10 | filtering keeps relative order: the filter of a concatenation is the concatenation of the filters |
| `Sequences.FilterLength` | src/stores/todoStore.js:8 | the length of a filter equals the number of positions whose element satisfies the predicate |
| `Sequences.FilterPartition` | src/stores/todoStore.js:9-10 | filtering by a predicate and by its negation yields two parts with the input's multiset and length between them |
| `Sequences.FilterKeepsAll` | src/stores/todoStore.js:38 | when every element satisfies the predicate, the filter returns the input unchanged |
| `Sequences.FilterKeepsNone` | src/stores/todoStore.js:10 | when no element satisfies the predicate, the filter is empty |
| `Sequences.FilterIdempotent` | src/stores/todoStore.js:42 | filtering twice by the same predicate equals filtering once |
| `TodoStore.ActiveTasks` | src/stores/todoStore.js:9 | `activeTasks` holds exactly the unfinished tasks of the list |
| `TodoStore.CompletedTasks` | src/stores/todoStore.js:10 | `completedTasks` holds exactly the finished tasks of the list |
| `TodoStore.Remaining` | src/stores/todoStore.js:8 | `remaining` is the number of list positions holding an unfinished task |
| `TodoStore.ViewsPartition` | src/stores/todoStore.js:8-10 | active and completed views together hold every task with its multiplicity, no task is in both, and `remaining` plus the completed count is the list length |
| `TodoStore.ViewsKeepOrder` | src/stores/todoStore.js:9-10 | both views keep the list order (they distribute over concatenation) |
| `TodoStore.FindIndex` | src/stores/todoStore.js:31 | `find` by id yields the first position with that id, or nothing when no task has it |
| `TodoStore.Toggled` | src/stores/todoStore.js:30-36 | after a toggle, the first task with the id has `done` inverted and every other task is as before, ids and length unchanged |
| `TodoStore.ToggleTwice` | src/stores/todoStore.js:30-36 | toggling the same id twice restores the original list |
| `TodoStore.Deleted` | src/stores/todoStore.js:37-40 | after a delete the list holds exactly the tasks whose id differs |
| `TodoStore.DeletedKeepsOrder` | src/stores/todoStore.js:38 | deleting keeps the original order of the remaining tasks |
| `TodoStore.AddThenDelete` | src/stores/todoStore.js:20-40 | adding a task with an id no task carries and then deleting that id restores the previous list |
| `TodoStore.ClearCompletedProperties` | src/stores/todoStore.js:41-44 | clearing completed tasks is idempotent, leaves no completed task, and leaves `remaining` equal to the list length |
| `TodoStore.Store.constructor` | src/stores/todoStore.js:4-6 | the store starts with an empty list; the slot is whatever local storage holds |
| `TodoStore.Store.Init` | src/stores/todoStore.js:13-16 | `init` loads the persisted list, or `[]` when the slot is empty, and restores the list that `persist` wrote |
| `TodoStore.Store.Persist` | src/stores/todoStore.js:17-19 | `persist` makes the slot equal to the in-memory list, leaving the list unchanged |
| `TodoStore.Store.AddTask` | src/stores/todoStore.js:20-29 | the new unfinished task with the given text is at index 0, the old list follows it unchanged, and the slot equals the list |
| `TodoStore.Store.ToggleTask` | src/stores/todoStore.js:30-36 | the list becomes `Toggled`; the slot equals it when a task matched; with no match neither list nor slot changes |
| `TodoStore.Store.DeleteTask` | src/stores/todoStore.js:37-40 | the list becomes `Deleted`, no task with the id remains, and the slot equals the list |
| `TodoStore.Store.ClearCompleted` | src/stores/todoStore.js:41-44 | the list becomes the active tasks, no completed task remains, `remaining` is the length, and the slot equals the list |
| `IdbKeys.KeyOf` | src/utils/db.js:26 | a value is a key exactly when it is a number or a string, and the key reads back as that value |
| `IdbKeys.StrLessIrreflexive` | src/utils/db.js:63 | no string sorts before itself |
| `IdbKeys.StrLessTransitive` | src/utils/db.js:63 | string order is transitive |
| `IdbKeys.StrLessTotal` | src/utils/db.js:63 | of two different strings, one sorts before the other |
| `IdbKeys.KeyLessStrictTotal` | src/utils/db.js:63 | the key order is a strict total order |
| `IdbKeys.SmallestUnique` | src/utils/db.js:68 | a set of keys has at most one smallest key, so `get` of a range names one record |
| `IdbKeys.SmallestExists` | src/utils/db.js:63 | every non-empty set of keys has a smallest key, so an ordered walk of the store can always go on |
| `TodoDb.Sanitize` | src/utils/db.js:9-17 | the record has exactly the five properties; `id` is kept; `done` is a boolean that is true exactly when the input's `done` is truthy; truthy `text`, `createdAt`, `frappe_id` are kept, falsy ones become `''`, the clock reading and `null` |
| `TodoDb.SanitizeFixesSanitized` | src/utils/db.js:9-17 | a record already in sanitized shape is returned unchanged |
| `TodoDb.SanitizeIdempotent` | src/utils/db.js:9-17 | sanitizing a sanitized record returns it unchanged, whatever the later clock reading |
| `TodoDb.SanitizeCloneable` | src/utils/db.js:9-17 | the sanitized record can be cloned exactly when none of `id`, `text`, `createdAt`, `frappe_id` holds a function (the other properties are dropped) |
| `TodoDb.SaveOne` | src/utils/db.js:48-50 | a save fails exactly when `PutError` names an error, and with that error: `DataCloneError` when a copied property holds a function, otherwise `DataError` when the id is not a key; on success the sanitized record is stored under its key, every other key keeps its record, and a valid store stays valid |
| `TodoDb.SaveAllCompletes` | src/utils/db.js:53-59 | a bulk save completes exactly when every record can be put: no copied property holds a function and the id is a key |
| `TodoDb.SaveAllConcat` | src/utils/db.js:53-59 | saving `a + b` is saving `a` and then, if that completed, saving `b`: the bulk save is the single saves in order |
| `TodoDb.SaveAllStopsAtFirstInvalid` | src/utils/db.js:53-59 | a failed bulk save rejects with the error of the first record that cannot be put, and leaves exactly the records saved before it |
| `TodoDb.SaveAllUntouched` | src/utils/db.js:53-59 | a key that no saved record carries keeps its record or stays absent; in particular an empty list changes nothing |
| `TodoDb.SaveAllLastWins` | src/utils/db.js:53-59 | after a completed bulk save, the last record carrying a key is the one stored under it |
| `TodoDb.SaveAllKeepsValid` | src/utils/db.js:53-59 | a bulk save keeps every record sanitized and filed under its own id |
| `TodoDb.Lookup` | src/utils/db.js:67-69 | a lookup fails with `DataError` exactly when the query is a value that is not a key; otherwise it returns a record exactly when some stored key is selected, and then the record under the smallest selected key |
| `TodoDb.SaveThenLoad` | src/utils/db.js:48-69 | the save of a record that can be put succeeds, and loading its id then returns that record sanitized |
| `TodoDb.Remove` | src/utils/db.js:72-74 | a delete fails with `DataError` exactly when the query is a value that is not a key; otherwise exactly the selected keys are removed, the other records are kept, and a query that selects nothing changes nothing |
| `TodoDb.ListedRecordsValid` | src/utils/db.js:62-64 | records listed from a valid store are sanitized and carry the key they are listed under |
| `TodoDb.LocalCache.constructor` | src/utils/db.js:22-30 | the opened store holds the contents found, which are valid |
| `TodoDb.LocalCache.SaveTodo` | src/utils/db.js:48-50 | on success the store becomes `SaveOne` of the old store and the result is the key of the record's id; on failure the store is unchanged and the result is `SaveOne`'s error; validity is kept |
| `TodoDb.LocalCache.SaveTodos` | src/utils/db.js:53-59 | the loop of puts, with the clone check and the key check of each, ends in the store and outcome `SaveAll` gives; validity is kept |
| `TodoDb.LocalCache.LoadTodos` | src/utils/db.js:62-64 | every stored record is returned once, in strictly ascending key order, and nothing else; an empty store gives `[]`; from a valid store every row is sanitized and carries its key as `id` |
| `TodoDb.LocalCache.LoadTodo` | src/utils/db.js:67-69 | the result is `Lookup` on the current store for a key or a key range; from a valid store a found record is sanitized |
| `TodoDb.LocalCache.DeleteTodo` | src/utils/db.js:72-74 | for a key or a key range, the store becomes `Remove` of the old store on success and is unchanged on failure; validity is kept |
| `TodoDb.LocalCache.ClearTodos` | src/utils/db.js:77-79 | the store becomes empty, so a following `LoadTodos` returns `[]` |

## Left out

- Opening the database and running transactions (`getDb`, `withStore`, `tx.done`, the `idb` library): each call is modelled as one atomic update of the map.
- Asynchronous scheduling and promises: each call runs to completion before the next starts.
- `localStorage` and JSON: the slot holds a task list directly. Slot contents that are not a serialised task list are not modelled, because only `persist` writes the slot. Such contents would make `JSON.parse` throw or yield a non-list.
- Pinia reactivity and the Vue presentation layer.
- Remote synchronisation: it does not appear in these two files.
- IdbKeys.KeyOf: dates, arrays, binary data and the infinities are valid IndexedDB keys but are not modelled. `Obj` stands for every plain object and array, and the model treats it as not a key.
- IdbKeys.StrLess: strings compare by Unicode scalar value. IndexedDB compares UTF-16 code units; the two orders differ only for characters outside the Basic Multilingual Plane.
- TodoDb.Sanitize: object identity is not modelled, so all cloneable objects are one value `Obj` and all values clone refuses are one value `Func`. Values that clone accepts but whose clone differs (class instances losing their prototype) are taken as cloned unchanged. `sanitizeTodo` is assumed to get an object; a `null` or `undefined` argument would throw.
