# To-do list: a verified model of the task-list logic

The repository is one React component, `TodoApp`. It keeps a list of tasks (`id`, `text`, `completed`) in component state. Three handlers change that list:

- add appends the trimmed input as a pending task, and rejects blank input;
- delete drops the tasks that carry an id;
- toggle flips `completed` on the tasks that carry an id.

The component renders a derived view: the list filtered by the "filter" selection ("completed", "pending", anything else means all), then a sorted copy by the "sort" selection ("az", "za", anything else means keep the order).

This project models that logic in Dafny and proves what it promises.

- `js_string.dfy` (module `JsString`) models the two string built-ins the component calls. `Trim` strips ECMAScript white space and line terminators at both ends. `LocaleCompare` is the comparator for the two text sorts.
- `js_array.dfy` (module `JsArray`) models `Array.prototype.filter` as `Keep`. It also defines what an order-preserving subsequence is.
- `tasks.dfy` (module `Tasks`) defines the `Task` record and the list invariant `WellFormed`: ids are distinct, and every text is non-empty with no white space at either end. It also holds the pure list updates that the delete and toggle handlers pass to `setTasks`.
- `view.dfy` (module `View`) holds the filter callback, the sort comparator, a stable sort of a copy, and the rendered list `Displayed`.
- `todo_app.dfy` (module `TodoApp`) holds the class `TodoState`. Its fields `tasks`, `input`, `filter` and `sort` stand for the component's four state hooks. Its methods are the event handlers. `Shown()` is the rendered list; it is a function, so it cannot change the state.
- `scenarios.dfy` (module `Scenarios`) has the worked filter and sort examples and one short session of events, each with its proved outcome.

## Model

| member | source | states |
|---|---|---|
| `JsString.TrimSlice` | src/components/TodoApp.js:24 | `trim` returns a slice `s[i..j]` of its input, and everything it cuts off at either end is white space |
| `JsString.Trim` | src/components/TodoApp.js:20-24 | the trimmed text is empty, or it neither starts nor ends with white space |
| `JsString.TrimEmptyIffBlank` | src/components/TodoApp.js:20 | the guard `taskInput.trim() === ""` holds exactly when the input is white space only |
| `JsString.TrimIdempotent` | src/components/TodoApp.js:24 | trimming an already trimmed text changes nothing |
| `JsString.LocaleCompare` | src/components/TodoApp.js:50-51 | `localeCompare` returns -1, 0 or 1: negative when the first text sorts first, positive when it sorts last |
| `JsString.LocaleCompareZero` | src/components/TodoApp.js:50-51 | the comparison returns 0 exactly for equal strings |
| `JsString.LocaleCompareAntisymmetric` | src/components/TodoApp.js:50-51 | `b.localeCompare(a)` is the negation of `a.localeCompare(b)`, so "za" is the exact reverse comparison of "az" |
| `JsString.LocaleCompareTransitive` | src/components/TodoApp.js:50-51 | "sorts no later than" is transitive, so the comparator is consistent |
| `JsArray.Keep` | src/components/TodoApp.js:43-47 | `filter` never lengthens a list, and every element it keeps passes the callback |
| `JsArray.KeepMembership` | src/components/TodoApp.js:43-47 | an element is in the filtered list exactly when it is in the input and passes the callback |
| `JsArray.KeepIsSubsequence` | src/components/TodoApp.js:43-47 | the filtered list is an order-preserving subsequence of the input |
| `JsArray.KeepMultiplicity` | src/components/TodoApp.js:43-47 | each passing element is kept as often as it occurs, and no failing element is kept |
| `JsArray.KeepAll` | src/components/TodoApp.js:46 | filtering returns the input unchanged exactly when every element passes |
| `JsArray.KeepIdempotent` | src/components/TodoApp.js:32 | filtering twice with the same callback equals filtering once |
| `JsArray.KeepConcat` | src/components/TodoApp.js:27 | filtering a concatenation equals concatenating the filtered parts |
| `Tasks.ValidTextIsTrimmed` | src/components/TodoApp.js:20-24 | a stored text is valid exactly when it is non-empty and `trim` leaves it unchanged |
| `Tasks.TrimmedIsValid` | src/components/TodoApp.js:20-24 | `trim(input)` is a valid stored text exactly when the input is not blank, so every task that add creates has a valid text |
| `Tasks.AppendPreservesWellFormed` | src/components/TodoApp.js:22-27 | appending a task whose id no stored task carries and whose text is valid keeps ids distinct and texts valid |
| `Tasks.SubsequencePreservesWellFormed` | src/components/TodoApp.js:32 | every order-preserving subsequence of a well-formed list is well formed |
| `Tasks.Deleted` | src/components/TodoApp.js:32 | delete never lengthens the list, and no task left in it carries the id |
| `Tasks.DeleteKeepsOthers` | src/components/TodoApp.js:31-33 | delete returns an order-preserving subsequence with no task carrying the id, and keeps every other task as often as before |
| `Tasks.DeleteAbsentIsNoop` | src/components/TodoApp.js:32 | delete leaves the list unchanged exactly when no task carries the id |
| `Tasks.DeleteIdempotent` | src/components/TodoApp.js:32 | deleting the same id twice equals deleting it once |
| `Tasks.DeletePreservesWellFormed` | src/components/TodoApp.js:31-33 | delete keeps ids distinct and texts valid |
| `Tasks.Toggled` | src/components/TodoApp.js:35-41 | toggle keeps the length, the order, every id and every text, and flips `completed` exactly on the tasks carrying the id |
| `Tasks.ToggleInvolution` | src/components/TodoApp.js:35-41 | toggling the same id twice restores the original list |
| `Tasks.ToggleAbsentIsNoop` | src/components/TodoApp.js:38 | toggle leaves the list unchanged exactly when no task carries the id |
| `Tasks.AtMostOneWithId` | src/components/TodoApp.js:31-41 | in a well-formed list no two positions carry the same id |
| `Tasks.DeleteRemovesAtMostOne` | src/components/TodoApp.js:31-33 | on a well-formed list delete removes exactly one task when some task carries the id, and none otherwise |
| `Tasks.ToggleChangesAtMostOne` | src/components/TodoApp.js:35-41 | on a well-formed list toggle changes at most one position |
| `Tasks.TogglePreservesWellFormed` | src/components/TodoApp.js:35-41 | toggle keeps ids distinct and texts valid |
| `View.Shows` | src/components/TodoApp.js:43-47 | the filter callback rejects a task only when the setting is "completed" and the task is pending, or "pending" and the task is completed |
| `View.Filtered` | src/components/TodoApp.js:43-47 | the filtered view is no longer than `tasks`; under "completed" every task in it is completed, under "pending" none is |
| `View.FilteredSpec` | src/components/TodoApp.js:43-47 | the filtered view is an order-preserving subsequence of `tasks`; "completed" keeps exactly the completed tasks, "pending" exactly the others (each as often as stored), and any other setting keeps the whole list |
| `View.FilteredAppend` | src/components/TodoApp.js:27 | a newly appended task shows up at the end of the filtered view when it passes the filter, and the view is otherwise unchanged |
| `View.Compare` | src/components/TodoApp.js:49-53 | the comparator returns -1, 0 or 1, and returns 0 exactly when the setting is neither "az" nor "za" or the two texts are equal |
| `View.CompareTotal` | src/components/TodoApp.js:49-53 | of any two tasks, one sorts no later than the other |
| `View.CompareTransitive` | src/components/TodoApp.js:49-53 | the comparator is transitive under every sort setting |
| `View.Insert` | src/components/TodoApp.js:49 | one insertion step of the sort lengthens the list by exactly one |
| `View.InsertPermutation` | src/components/TodoApp.js:49 | one insertion step of the sort adds exactly the inserted task |
| `View.InsertOrdered` | src/components/TodoApp.js:49-53 | one insertion step keeps a list that is in comparator order in that order |
| `View.Sorted` | src/components/TodoApp.js:49 | the sorted copy has as many tasks as the filtered view |
| `View.SortedIsPermutation` | src/components/TodoApp.js:49 | the sorted copy is a permutation of the filtered view |
| `View.SortedIsOrdered` | src/components/TodoApp.js:49-53 | the sorted copy is in comparator order |
| `View.SortedAscending` | src/components/TodoApp.js:50 | under "az" the view is ascending by text |
| `View.SortedDescending` | src/components/TodoApp.js:51 | under "za" the view is descending by text |
| `View.SortedDefaultKeepsOrder` | src/components/TodoApp.js:52 | under any other setting the comparator always returns 0, and the view equals the filtered view |
| `View.SortedIsStable` | src/components/TodoApp.js:49-53 | tasks with equal text keep their filtered relative order after sorting |
| `View.Displayed` | src/components/TodoApp.js:43-53 | the rendered list is no longer than `tasks`, and with any filter other than "completed"/"pending" and any sort other than "az"/"za" it is `tasks` itself |
| `View.DisplayedSpec` | src/components/TodoApp.js:43-53 | the rendered list holds exactly the stored tasks that pass the filter, each as often as stored, in comparator order |
| `TodoApp.TodoState.constructor` | src/components/TodoApp.js:6-13 | start-up state: the saved list, or `[]` when nothing is saved; empty input; filter "all"; sort "default" |
| `TodoApp.TodoState.SetInput` | src/components/TodoApp.js:68 | typing replaces the input and changes nothing else |
| `TodoApp.TodoState.SetFilter` | src/components/TodoApp.js:85 | choosing a filter replaces the filter selection and changes nothing else |
| `TodoApp.TodoState.SetSort` | src/components/TodoApp.js:98 | choosing a sort replaces the sort selection and changes nothing else |
| `TodoApp.TodoState.Add` | src/components/TodoApp.js:19-29 | blank input is rejected and changes nothing; otherwise `tasks` becomes the old list plus `{freshId, trim(input), false}` and the input becomes ""; a fresh id keeps the list well formed |
| `TodoApp.TodoState.Shown` | src/components/TodoApp.js:43-53 | the rendered list is no longer than the stored list, and under filter "all" and sort "default" (the start-up settings) it is the stored list unchanged |
| `TodoApp.TodoState.Delete` | src/components/TodoApp.js:31-33 | `tasks` becomes the old list without the tasks carrying the id; the other state is unchanged and the list stays well formed |
| `TodoApp.TodoState.Toggle` | src/components/TodoApp.js:35-41 | `tasks` becomes the toggled old list; the other state is unchanged and the list stays well formed |
| `Scenarios.FilterCompletedExample` | src/components/TodoApp.js:43-47 | filter "completed" on one completed task and one pending task yields exactly the completed one |
| `Scenarios.SortExample` | src/components/TodoApp.js:49-53 | on the texts "banana", "apple": "az" gives apple, banana; "za" gives banana, apple; "default" keeps the order |
| `Scenarios.PendingSession` | src/components/TodoApp.js:19-53 | from an empty store: add two non-blank inputs under ids 1 and 2, toggle id 1, filter "pending"; the rendered texts are exactly the trimmed second input |
| `Scenarios.PendingAfterToggle` | src/components/TodoApp.js:19-53 | the same session with "Buy milk" and "Walk dog": the rendered list is exactly "Walk dog" |

## Left out

- Local storage (src/components/TodoApp.js:7-8 and 15-17) is browser I/O, and `JSON.parse`/`JSON.stringify` is a library serialiser, so neither is modelled. The constructor receives the already decoded saved list. The write-back after each change is not modelled.
- Start-up decoding (src/components/TodoApp.js:7-8): a stored empty string counts as "nothing saved", because `""` is falsy, and a stored value that `JSON.parse` rejects throws an error rather than giving an empty list. The model starts from an already decoded list and does not capture either case.
- TodoApp.TodoState.constructor: ensures `Valid()` only when nothing was saved, because the component takes a saved list as stored and never checks that its ids are distinct or its texts trimmed.
- TodoApp.TodoState.Add: takes the new id as the parameter `freshId` in place of `Date.now()`, which reads a clock. It keeps the list well formed only when that id is fresh. `Date.now()` does not guarantee this for two adds in the same millisecond, and the component does not check it.
- The `alert("Task cannot be empty")` call is a UI side effect. `Add` returns `false` in its place, and the state is unchanged.
- `String.prototype.localeCompare` uses locale-aware collation. The model uses lexicographic order on code points. The sort properties rely only on this order being total, antisymmetric (swapping the arguments negates the result) and transitive, which any consistent comparator satisfies. `LocaleCompareZero` and the zero clause of `View.Compare` (0 exactly when the texts are equal) hold only for the code-point order: real collation returns 0 for canonically equivalent but distinct strings, such as "é" written as one code point or as "e" followed by a combining accent.
- `Array.prototype.sort` is stable but does not fix an algorithm. The model uses a stable insertion sort. The model does not prove that every stable sort with this comparator gives the same result.
- `trim` follows the ECMAScript white-space and line-terminator code points. The space separators are the ones Unicode lists in category Zs. Later Unicode versions may add to that set; the model does not track them.
- Delete and toggle act on every task that carries the id, as the code's `filter` and `map` do. They are not limited to the first such task. On a well-formed list `DeleteRemovesAtMostOne` and `ToggleChangesAtMostOne` show that each affects at most one task.
- React's batching of state updates is not modelled. Each handler's `setTasks` and `setTaskInput` take effect together when the handler returns.
- JSX rendering, CSS classes and icons (src/components/TodoApp.js:55-139) are presentation only.
