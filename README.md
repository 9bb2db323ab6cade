# Todo store model

A Dafny model of the todo store of an Angular todo-list application: the
`TodoService` class (`src/app/services/todo.service.ts`) and the record types
it works on (`src/app/models/todo.model.ts`). The store keeps the list of
todos as the current value of a `BehaviorSubject`, saves the whole list to a
`localStorage` slot after each change, and publishes it again on the subject.

Files and modules:

- `wrappers.dfy` — `Wrappers`: the `Option` type (`undefined` answers, optional patch fields).
- `sequences.dfy` — `Sequences`: `Filter` (`Array.prototype.filter`) and its
  properties: membership, order (subsequence), append, partition, all/none.
- `todo_model.dfy` — `TodoModel`: `TodoId` (`number | string`, two cases
  compared by `===`), `Timestamp`, `Todo`, `TodoCreate`, `TodoUpdate`, and
  `Merge`, the object spread that applies a patch.
- `todo_lists.dfy` — `TodoLists`: the effect of each store operation on a list
  value (`FindIndex`, `Find`, `Updated`, `Toggled`, `Without`, `Active`,
  `Completed`) and the lemmas relating them.
- `todo_service.dfy` — `TodoServices`: the class `TodoService` with fields
  `todos` (the subject's value), `published` (every value the subject has
  held, so a contract can say "nothing was published") and `stored` (the
  `localStorage` item, `None` when absent). Its invariant `Valid()` says the
  latest published list, the in-memory list and the stored list agree.
  `Publish` stands for `todosSubject.next` and `SaveTodos` for `saveTodos`;
  `SlotContents` is what loading the slot gives. Every
  mutator keeps it, and each one says exactly how its new list follows from
  the old one: through the `TodoLists` functions, or as an append for
  `CreateTodo`.

The record types are datatypes: a `TodoCreate` carries only a title and a
description, and a `TodoUpdate` holds three optional fields. Neither has an
`id` or `createdAt` field, so a well-typed patch cannot change one.

Inputs the source gets from its environment are parameters. `CreateTodo`
takes the `Date.now()` reading that becomes the id and the `new Date()` value
that becomes `createdAt`. The constructor takes the slot's contents.

## Model

| member | source | states |
|---|---|---|
| `TodoModel.Merge` | src/app/services/todo.service.ts:80-85 | the merged record keeps the original id and createdAt; each field the patch gives takes the patch's value, each field it omits keeps the old value |
| `TodoModel.MergeThen` | src/app/services/todo.service.ts:80-85 | two successive patches equal one combined patch where the later field wins; applying a patch twice equals applying it once |
| `TodoModel.MergeNoChange` | src/app/models/todo.model.ts:17-21 | a patch with no field given leaves the record unchanged |
| `Sequences.Filter` | src/app/services/todo.service.ts:100 | the filtered list is no longer than the input and every element in it satisfies the predicate |
| `Sequences.FilterIsSubsequence` | src/app/services/todo.service.ts:133 | filtering keeps the relative order of the kept elements |
| `Sequences.FilterMembership` | src/app/services/todo.service.ts:133 | an element survives the filter exactly when it is in the input and satisfies the predicate |
| `Sequences.FilterPartition` | src/app/services/todo.service.ts:132-133 | a predicate and its complement split the list: the lengths add up and the multisets sum to the original |
| `Sequences.FilterKeepsAll` | src/app/services/todo.service.ts:100-102 | the filter keeps the full length exactly when every element satisfies the predicate, and then it returns the input itself |
| `Sequences.FilterKeepsNone` | src/app/services/todo.service.ts:144 | the filter is empty exactly when no element satisfies the predicate |
| `TodoLists.FindIndex` | src/app/services/todo.service.ts:72 | -1 exactly when no record has the id; otherwise the first index whose id is strictly equal |
| `TodoLists.Find` | src/app/services/todo.service.ts:43 | undefined exactly when no record has the id; otherwise the record at the first matching index |
| `TodoLists.Updated` | src/app/services/todo.service.ts:72-87 | the length is kept; an absent id leaves the list as it was; otherwise only the first matching index is replaced, by the merge of the old record with the patch |
| `TodoLists.Toggled` | src/app/services/todo.service.ts:114-125 | an absent id leaves the list as it was; otherwise the first match gets `completed` flipped and its other fields kept, and every other index is unchanged |
| `TodoLists.FlipCompleted` | src/app/services/todo.service.ts:125 | the patch `toggleTodo` sends: merged into the record, it flips `completed` and keeps every other field |
| `TodoLists.Completed` | src/app/services/todo.service.ts:132 | exactly the completed records of the list, in their original order |
| `TodoLists.Active` | src/app/services/todo.service.ts:133 | exactly the records that are not completed, in their original order |
| `TodoLists.Without` | src/app/services/todo.service.ts:100 | exactly the records whose id differs from the given one, in their original order |
| `TodoLists.FindIndexAfterUpdate` | src/app/services/todo.service.ts:83-87 | after an update the same index is still the first match for the id |
| `TodoLists.FindAfterUpdate` | src/app/services/todo.service.ts:80-90 | a lookup after an update returns the merged record, or undefined when the id was absent |
| `TodoLists.ToggleTwice` | src/app/services/todo.service.ts:114-125 | toggling the same id twice restores the original list |
| `TodoLists.FindAfterAppend` | src/app/services/todo.service.ts:52-60 | after an append, a lookup finds an earlier record with that id if there is one, otherwise the new record if its id matches, otherwise nothing |
| `TodoLists.DeleteProperties` | src/app/services/todo.service.ts:98-102 | delete keeps exactly the records with other ids, in the original order and with every copy: it and the records with that id partition the list by length and multiset; the list is shorter exactly when the id was present; an absent id leaves the list unchanged; afterwards the id is not found |
| `TodoLists.DeleteUniqueRemovesOne` | src/app/services/todo.service.ts:100-102 | when ids are unique, deleting a present id removes exactly one record |
| `TodoLists.ClearCompletedProperties` | src/app/services/todo.service.ts:131-133 | the completed and active counts add up to the length, the two filters partition the list, and the active records are kept in their original order |
| `TodoLists.AppendActive` | src/app/services/todo.service.ts:57-60 | a new, uncompleted record goes to the end of the active records and leaves the completed ones unchanged |
| `TodoServices.SlotContents` | src/app/services/todo.service.ts:20-26 | the list the store loads from its slot: the saved list when there is an item, `[]` when the item is absent |
| `TodoServices.TodoService.Publish` | src/app/services/todo.service.ts:62 | `todosSubject.next`: the subject's value becomes the list, and exactly that list is appended to the published values |
| `TodoServices.TodoService.constructor` | src/app/services/todo.service.ts:11-16 | the subject starts at `[]`, then holds the slot's list (or `[]` when the slot is absent), and the invariant holds |
| `TodoServices.TodoService.LoadTodos` | src/app/services/todo.service.ts:19-27 | publishes the slot's list, or `[]` when the slot is absent; the slot is not written |
| `TodoServices.TodoService.SaveTodos` | src/app/services/todo.service.ts:30-32 | the slot holds exactly the given list |
| `TodoServices.TodoService.GetTodos` | src/app/services/todo.service.ts:35-37 | the stream's latest value, which equals the stored list |
| `TodoServices.TodoService.GetTodoById` | src/app/services/todo.service.ts:40-47 | the first record with the id, or undefined, and no change to any state |
| `TodoServices.TodoService.CreateTodo` | src/app/services/todo.service.ts:50-66 | appends exactly one record with the given title and description, `completed` false, the clock's id and timestamp; earlier records unchanged; saves and publishes the new list once |
| `TodoServices.TodoService.UpdateTodo` | src/app/services/todo.service.ts:69-93 | the new list is `Updated` of the old one; absent id: undefined, no save and no publish; present id: returns the merged record, which a lookup now finds, then saves and publishes |
| `TodoServices.TodoService.DeleteTodo` | src/app/services/todo.service.ts:96-111 | true exactly when the id was present; the new list is the old one without that id; saves and publishes only when true |
| `TodoServices.TodoService.ToggleTodo` | src/app/services/todo.service.ts:114-126 | the new list is `Toggled` of the old one; absent id: undefined with no effect; otherwise the returned record has `completed` flipped, then saves and publishes |
| `TodoServices.TodoService.DeleteCompleted` | src/app/services/todo.service.ts:129-140 | returns the number of completed records, keeps only the active ones, and always saves and publishes |
| `TodoServices.TodoService.GetActiveTodosCount` | src/app/services/todo.service.ts:143-145 | active and completed counts add up to the length; zero exactly when every record is completed |
| `TodoServices.TodoService.GetCompletedTodosCount` | src/app/services/todo.service.ts:148-150 | adds up with the active count to the length; zero exactly when none is completed; the full length exactly when all are |
| `TodoServices.Reload` | src/app/services/todo.service.ts:14-27 | a new store built over the same slot starts from the list the old store last saved and published |
| `TodoServices.ToggleTwiceRestores` | src/app/services/todo.service.ts:114-125 | two toggles of one id through the store leave its list as it was |

## Left out

- `localStorage` and JSON: the slot holds the list as a value. The source
  stores a JSON string, and `JSON.parse` does not turn `createdAt` back into a
  `Date`, so a reloaded record has a string there. The model does not capture
  that. An empty-string item is falsy at line 21, so it loads as `[]`
  exactly like an absent item, the model's `None`. A malformed non-empty
  payload is not modelled: the source's `JSON.parse` would throw in the
  constructor.
- Storage failures: reads and writes of the slot are assumed never to throw.
  In the source, a `setItem` that throws (quota exceeded, storage disabled)
  in `createTodo` or `updateTodo` comes after the in-place `push` (line 60)
  or index assignment (line 87). The subject's array is then changed, but
  the change is neither saved nor published. `Valid()` holds in the model
  only because `SaveTodos` cannot fail.
- RxJS: `BehaviorSubject`, `asObservable` and the cold `new Observable(...)`
  bodies. Each operation runs once, at the call. In the source a body runs
  once per subscription, so subscribing twice to one `createTodo` result
  would append twice. `published` records the values handed to `next`, not
  the subscribers.
- `toggleTodo` reads the record when it is called but runs `updateTodo` only
  when its result is subscribed to. The model runs both at the call, so it
  does not capture a flip computed from a stale `completed` value.
- Aliasing of the published array: `push` (line 60) and index assignment
  (line 87) change the array that is the subject's value, which may also be
  an array handed to subscribers earlier. Lists here are immutable `seq`
  values, so the model has no such sharing.
- Id generation: `Date.now()` is a parameter. Two creates in the same
  millisecond get the same id, so the model does not claim unique ids.
  `DeleteUniqueRemovesOne` is stated only under an explicit uniqueness
  assumption, and `FindAfterAppend` shows that a lookup then finds the
  earlier record.
- `TodoId` numbers are integers: fractional numbers and `NaN` (never `===`
  to itself) are not modelled.
- A `TodoUpdate` whose key is present with the value `undefined` overwrites
  the field with `undefined` under object spread. The model's `None` means
  the key is absent. Extra keys that the type does not declare are not
  modelled.
- The UI components (`todo-form`, `todo-list`, `app`): dialogs, timers,
  scrolling and form state. The blank-title check lives in the form, and the
  store accepts any title.
