# To-do list task logic in Dafny

This project models the task-list logic of the `ToDoList` React component
(`src/components/ToDoList.jsx`). With rendering and browser storage taken
away, that logic is a small set of pure operations on an ordered list of task
records `{id, text, completed, createdAt}`:

- **Loading** the list saved under the `todo-tasks` key. The saved array is
  adopted only if every element has a truthy `id`, a truthy `text` and a
  boolean `completed`. Anything else gives the empty list (`Storage.Load`).
- **Four mutations**, each a function from the old list to the new one:
  - `Tasks.Add` appends the trimmed input as a new uncompleted task. It
    refuses input that is blank.
  - `Tasks.Remove` deletes the tasks with a given id.
  - `Tasks.Toggle` flips `completed` on the tasks with a given id.
  - `Tasks.ClearCompleted` deletes the completed tasks.
- **The derived view** (`TaskView.GetView`). It filters by mode
  (`all`/`active`/`completed`; an unknown mode shows everything). It then
  sorts stably by mode (`date-asc`, `date-desc`, `name-asc`, `name-desc`; any
  other mode keeps the order). It also returns the remaining and completed
  counts over the whole list.
- **The save effect** (`Session`). Every change of the list is followed by a
  write of the whole list. The storage-error flag is set exactly when that
  write failed.

Modules:

| module | file | contents |
|---|---|---|
| `Wrappers` | wrappers.dfy | `Option`, `Result` |
| `Seqs` | seqs.dfy | order-preserving `Filter` (JavaScript's `Array.prototype.filter`), the subsequence relation, and their lemmas |
| `Sorting` | sorting.dfy | stable insertion sort by a comparator; permutation, ordering and stability lemmas |
| `Text` | text.dfy | `trim` with the ECMAScript whitespace set; the text comparison used by the name sort |
| `Tasks` | tasks.dfy | task record, id values with JavaScript truthiness, the four mutations |
| `Storage` | storage.dfy | the parsed stored value, the load validator, the encoding of a list, the round trip |
| `TaskView` | view.dfy | filter and sort modes, the comparator, the view and its counts |
| `Session` | session.dfy | state with stored value and error flag, mount, one step per user action |
| `Scenario` | scenario.dfy | a worked session and a name-sort example |

Ids are JSON scalars (`Tasks.Value`) compared with strict equality. The code
never makes ids unique: `Date.now()` can return the same value twice. So
nothing here assumes uniqueness. Removing or toggling an id acts on every
task that carries it.

Three consequences of the code are worth stating:

- Removal and toggling filter and map over the whole list. So they act on
  every task that carries the id, not only on the first.
- Nothing makes ids unique. A loaded array may also repeat a record.
- The save effect runs after every change of the list. It also runs once
  when the component mounts (`Session.Start`).

## Model

| member | source | states |
|---|---|---|
| Seqs.Filter | src/components/ToDoList.jsx:78-82 | the selection is an order-preserving subsequence of the input, no longer than it, and every kept element passes |
| Seqs.FilterMembers | src/components/ToDoList.jsx:78-82 | every kept element comes from the input, and every element of the input that passes is kept |
| Seqs.FilterUnique | src/components/ToDoList.jsx:59 | a filter is the only subsequence of its passing elements that has their number, so it drops exactly the failing elements |
| Seqs.FilterPartition | src/components/ToDoList.jsx:92-93 | the elements a predicate keeps and those a complementary predicate keeps add up to the whole list |
| Seqs.FilterKeepsAll | src/components/ToDoList.jsx:81 | a filter returns the list unchanged exactly when every element passes |
| Seqs.FilterIdempotent | src/components/ToDoList.jsx:75 | filtering a second time with the same predicate changes nothing |
| Sorting.SortBy | src/components/ToDoList.jsx:84 | the sorted view is a permutation (same multiset, same length) of its input |
| Sorting.SortBySorted | src/components/ToDoList.jsx:84-90 | with a consistent comparator, no element is placed after one that sorts later |
| Sorting.SortByStable | src/components/ToDoList.jsx:84 | elements the comparator ties keep their original relative order |
| Sorting.SortByAllTied | src/components/ToDoList.jsx:89 | when the comparator ties every pair, the sort returns its input unchanged |
| Text.TrimStart | src/components/ToDoList.jsx:49 | the result is a suffix of the input, everything dropped is whitespace, and it does not start with whitespace |
| Text.TrimEnd | src/components/ToDoList.jsx:49 | the result is a prefix of the input, everything dropped is whitespace, and it does not end with whitespace |
| Text.Trim | src/components/ToDoList.jsx:42 | the result is an infix with only whitespace cut away on both sides, has no whitespace at either end, and is empty exactly when the input is blank |
| Text.TrimIdempotent | src/components/ToDoList.jsx:49 | the stored text is already trimmed: trimming it again changes nothing |
| Text.Compare | src/components/ToDoList.jsx:87-88 | the text comparison returns -1, 0 or 1, and 0 exactly for equal texts |
| Text.CompareAntisymmetric | src/components/ToDoList.jsx:87-88 | swapping the texts negates the comparison, so name-desc is name-asc reversed |
| Text.CompareTransitive | src/components/ToDoList.jsx:87-88 | "sorts no later than" on texts is transitive |
| Tasks.Add | src/components/ToDoList.jsx:41-54 | refused exactly when the input is blank; otherwise one task is appended after the untouched old list, with the given id and time, trimmed non-empty text, and not completed |
| Tasks.AddThenRemove | src/components/ToDoList.jsx:47-59 | adding under an id no task carries and then removing that id gives back the original list |
| Tasks.Remove | src/components/ToDoList.jsx:58-60 | the result is an order-preserving subsequence with no task carrying the id, and its length drops by exactly the number of tasks carrying the id |
| Tasks.RemoveUnique | src/components/ToDoList.jsx:58-60 | any subsequence without the id that is shorter by exactly the number of tasks with it is the removal |
| Tasks.RemoveAbsent | src/components/ToDoList.jsx:58-60 | removing an id no task carries leaves the list unchanged |
| Tasks.RemoveIdempotent | src/components/ToDoList.jsx:58-60 | removing the same id a second time changes nothing |
| Tasks.Toggle | src/components/ToDoList.jsx:62-66 | length, order, ids, texts and creation times are kept, and `completed` changes exactly on the tasks carrying the id |
| Tasks.ToggleInvolution | src/components/ToDoList.jsx:62-66 | toggling the same id twice restores the list |
| Tasks.ToggleAbsent | src/components/ToDoList.jsx:62-66 | toggling an id no task carries leaves the list unchanged |
| Tasks.ClearCompleted | src/components/ToDoList.jsx:74-76 | the result is an order-preserving subsequence with no completed task, and its length drops by exactly the number of completed tasks |
| Tasks.ClearCompletedUnique | src/components/ToDoList.jsx:74-76 | the uncompleted tasks in their original order are the only possible result |
| Tasks.ClearCompletedIdempotent | src/components/ToDoList.jsx:74-76 | clearing twice is the same as clearing once |
| Storage.Decode | src/components/ToDoList.jsx:12-15 | an element that passes the check becomes a well-formed task, and encoding that task gives the element back |
| Storage.Encode | src/components/ToDoList.jsx:33 | the saved value is an array with one element per task |
| Storage.Load | src/components/ToDoList.jsx:6-23 | all or nothing: a missing, unparsable or non-array value gives the empty list; the array is adopted whole exactly when every element passes, and any failing element gives the empty list; adopted tasks are well-formed and in stored order |
| Storage.LoadEncode | src/components/ToDoList.jsx:7-15 | loading what was saved for a list returns that list when all its tasks are well-formed, and the empty list otherwise |
| Storage.ReloadStable | src/components/ToDoList.jsx:7-15 | saving a loaded list and loading it again returns the same list |
| TaskView.FilterTasks | src/components/ToDoList.jsx:78-82 | the view is an order-preserving subsequence of the list. Under `completed` it holds only completed tasks, every completed task appears, and its length is the number of completed tasks. Under `active` the same holds for uncompleted tasks. Under any other mode it is the whole list |
| TaskView.GetView | src/components/ToDoList.jsx:78-93 | the items are a permutation of the filtered tasks; the remaining count is the size of the `active` filter and the completed count the size of the `completed` filter, together the list length, whatever the filter |
| TaskView.ComparatorConsistent | src/components/ToDoList.jsx:84-90 | every sort mode's comparator is consistent: antisymmetric in sign and transitive |
| TaskView.ViewSorted | src/components/ToDoList.jsx:84-90 | the view is in comparator order for every sort mode |
| TaskView.DateAscending | src/components/ToDoList.jsx:85 | under `date-asc`, creation times never decrease along the view |
| TaskView.DateDescending | src/components/ToDoList.jsx:86 | under `date-desc`, creation times never increase along the view |
| TaskView.NameAscending | src/components/ToDoList.jsx:87 | under `name-asc`, texts never decrease along the view |
| TaskView.NameDescending | src/components/ToDoList.jsx:88 | under `name-desc`, texts never increase along the view |
| TaskView.UnsortedKeepsOrder | src/components/ToDoList.jsx:89 | `default` and every unrecognised sort mode show the filtered tasks in list order |
| TaskView.ViewStable | src/components/ToDoList.jsx:84 | tasks the sort mode ties keep their list order in the view |
| TaskView.ActiveIsClearCompleted | src/components/ToDoList.jsx:75-80 | the `active` view is exactly what clearing completed tasks keeps |
| TaskView.CompletedViewUnique | src/components/ToDoList.jsx:78-79 | the `completed` view is the only order-preserving selection of completed tasks whose length is the number of completed tasks, so a repeated task is shown as often as it occurs |
| TaskView.ActiveViewUnique | src/components/ToDoList.jsx:78-80 | the `active` view is the only order-preserving selection of uncompleted tasks whose length is the number of uncompleted tasks |
| Session.Save | src/components/ToDoList.jsx:31-39 | after a save the flag is set exactly when the write failed; a successful write stores a value that loads back as the list when every task is well-formed and as the empty list otherwise, and a failed one leaves the stored value as it was |
| Session.Start | src/components/ToDoList.jsx:6-39 | on mount the list is exactly what loading the stored value gives, and it is well-formed; the flag is set exactly when the first write failed, which leaves the stored value as it was |
| Session.Step | src/components/ToDoList.jsx:41-76 | a refused add changes nothing, not even the flag; any other action installs its new list and sets the flag exactly when its write failed |
| Session.StartInSync | src/components/ToDoList.jsx:6-39 | after mount every task is well-formed, and with the flag clear the stored value loads back as the list |
| Session.StepInSync | src/components/ToDoList.jsx:31-76 | every action keeps that property, given truthy new ids |
| Scenario.TrimDog | src/components/ToDoList.jsx:49 | trimming `" Walk dog "` removes the outer spaces and keeps the inner one |
| Scenario.AddMilk | src/components/ToDoList.jsx:41-54 | adding "Buy milk" to the empty list gives one uncompleted task |
| Scenario.AddDog | src/components/ToDoList.jsx:41-54 | adding `" Walk dog "` appends the trimmed task after "Buy milk" |
| Scenario.BuyMilkWalkDog | src/components/ToDoList.jsx:78-93 | after "Buy milk" is completed, the active view is just "Walk dog", the completed view is just "Buy milk", and both counts are 1 |
| Scenario.NameDescExample | src/components/ToDoList.jsx:88 | name Z-A shows "Banana" before "Apple" whichever was created first |

## Left out

- Rendering and event wiring are left out. This covers the JSX, the
  `useState`/`useEffect` plumbing, `handleKeyPress`, `alert` and
  `console.error`. A refused add is reported as `Failure(EmptyTask)`.
- `localStorage` and JSON are left out. The stored value is modelled as what
  `JSON.parse` returns (`Storage.Stored`). The text encoding is not modelled.
  Whether a write succeeds is a parameter of `Session.Save` and
  `Session.Step`.
- The clock is left out. `Date.now()` and `new Date().toISOString()` become
  the `id` and `createdAt` parameters of `Tasks.Add`.
- `createdAt` is an integer count of milliseconds, not an ISO 8601 string.
  So date parsing, invalid dates and `NaN` comparator results are not
  modelled.
- Storage.Record: a stored `text` is either a string or missing, and
  `createdAt` is always present. A truthy non-string `text`, which the
  validator would accept, cannot be represented. Neither can a task missing
  `createdAt`.
- Storage.Record: extra fields of a stored task object are not represented. Loading adopts the stored objects whole, toggling copies them with `{...task}`, and the save writes them again; the model keeps only `id`, `text`, `completed` and `createdAt`.
- Tasks.Value: ids are JSON scalars with integer numbers. Object or array
  ids, fractional numbers and `NaN` cannot be represented.
- Text.Compare: `localeCompare` is locale-aware. The model compares by
  code point instead, so its order can differ from a browser's for mixed
  case or accented text.
- JavaScript strings are UTF-16 code units, but Dafny strings here are
  sequences of Unicode scalar values. The whitespace set is the one in the
  ECMAScript standard.
- React's effect scheduling is not modelled, including the development-mode
  double run of effects. The save effect runs once per changed list.
