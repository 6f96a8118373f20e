# To-do list component: a Dafny model of its state and handlers

The repository holds one React component, `InputComponent`, for a to-do list.
Once the rendering is set aside, what remains is a small state machine. The
state has four fields:

- `inputValue`: the text field
- `tasks`: an ordered list of `{text, isDone, isChecked}`
- `editIndex`: the position of the task under edit, or null
- `errorMessage`: the message shown under the list

Each event handler updates this state in one atomic step. The handlers are:
commit the text field (`handleAddTask`), delete, move up, move down, begin
edit, the two flag toggles, and the three bulk deletes.

The model has three modules:

- `JsString` (`js_string.dfy`) models `String.prototype.trim` over the
  ECMAScript white-space and line-terminator characters. `Trim` is proved to
  cut white space, and only white space, from both ends of the string, and to
  be empty exactly for all-white-space strings.
- `TodoState` (`todo_state.dfy`) defines the `Task` and `Store` values. It has
  one pure transition per handler, and lemmas for what each transition
  promises: the commit outcomes, "only index i changes", order preservation,
  the swap and toggle inverses, idempotent bulk deletes, and the invariant
  `WellFormed`. `WellFormed` says task texts are pairwise distinct and never
  blank, and every handler keeps it.
- `InputComponent` (`input_component.dfy`) is the component as an object.
  Class `TodoStore` has the four fields and one method per handler. The method
  bodies work the way the handlers do. The moves, the toggles and the edit
  branch of the commit copy the list into a fresh array, assign by index, and
  swap through a temporary. The single delete cuts the task out of the list,
  and the bulk deletes filter it. `HandleChange` states its new state directly:
  the field takes the value and nothing else changes. Every other method's
  postcondition equates the new state with the matching `TodoState` transition
  of the old state. Every method says the invariant is kept.

Behaviours of the code worth noting:

- Blank input is silent. Committing an empty or all-white-space field changes
  nothing, not even the message (`InputComponent.js:22-24`).
- The duplicate check compares the untrimmed field against every task,
  including the task under edit (`:27`). So starting an edit and committing
  the unchanged text reports "This task already exists."
  (`RecommitUnchangedEditIsDuplicate`).
- The edit branch builds `{text, isDone: false}` with no `isChecked` (`:40`).
  The two handlers that read the flag, the checked toggle (`:103`) and the
  bulk delete of checked tasks (`:109`), treat the missing value as false, so
  the model stores `false`. Editing therefore resets both flags in the model.
- The component never clears the message on its own. Only a successful commit
  clears it.
- The edit index stores a position, not a task. Moving or deleting tasks while
  an edit is open does not adjust it, so the commit replaces whatever task
  then sits at that position. The model keeps this behaviour.

## Model

| member | source | states |
|---|---|---|
| `JsString.TrimStart` | src/components/InputComponent.js:22 | the result is a suffix of the input, everything cut from the front is white space, and the result does not start with white space |
| `JsString.TrimEnd` | src/components/InputComponent.js:22 | the result is a prefix of the input, everything cut from the back is white space, and the result does not end with white space |
| `JsString.Trim` | src/components/InputComponent.js:22 | `trim()` is empty exactly when every character is white space; otherwise neither end of the result is white space |
| `JsString.TrimCutsWhitespace` | src/components/InputComponent.js:22 | `trim()` returns a slice of the string with nothing but white space before it and after it |
| `JsString.CutEnds` | src/components/InputComponent.js:22 | cutting leading white space and then trailing white space leaves a slice of the original with white space only on both sides |
| `TodoState.TextExists` | src/components/InputComponent.js:27 | `tasks.some(task => task.text === inputValue)` holds exactly when some position holds a task with exactly that text |
| `TodoState.Keep` | src/components/InputComponent.js:96 | `filter` keeps only entries satisfying the predicate, each kept entry exactly as often as in the input, and drops every other one |
| `TodoState.Swap` | src/components/InputComponent.js:60-62 | the temp-variable swap exchanges the two positions, leaves all others alone, and permutes the list |
| `TodoState.AddTask` | src/components/InputComponent.js:18-47 | a commit leaves the store with its edit index, if any, inside the list |
| `TodoState.CommitBlankChangesNothing` | src/components/InputComponent.js:22-24 | an all-white-space field makes the commit change nothing at all: list, edit index, field and message stay as they were |
| `TodoState.CommitDuplicateOnlySetsError` | src/components/InputComponent.js:26-32 | when some task's text equals the field exactly (the task under edit included), only the message changes, to "This task already exists." |
| `TodoState.CommitAppends` | src/components/InputComponent.js:42-46 | with no edit open, a fresh text is appended as `{text, false, false}`; earlier tasks are untouched, the length grows by one, field and message become empty |
| `TodoState.CommitReplacesEdited` | src/components/InputComponent.js:37-41 | with task i under edit, a fresh text replaces task i only, with both flags false; the length is kept, the edit ends, field and message become empty |
| `TodoState.AppendKeepsWellFormed` | src/components/InputComponent.js:42-44 | appending a task whose text is non-blank and matches no existing text keeps task texts distinct and non-blank |
| `TodoState.ReplaceKeepsWellFormed` | src/components/InputComponent.js:37-41 | overwriting one position with a task whose text is non-blank and matches no existing text keeps task texts distinct and non-blank |
| `TodoState.CommitKeepsWellFormed` | src/components/InputComponent.js:27-44 | if task texts are distinct and non-blank before a commit, they still are after it, whatever branch the commit takes |
| `TodoState.RecommitUnchangedEditIsDuplicate` | src/components/InputComponent.js:27-31 | beginning an edit and committing the unchanged text reports a duplicate and leaves the list and the open edit as they were |
| `TodoState.EditThenCommitReplaces` | src/components/InputComponent.js:78-81 | begin edit, type a new unique text, commit: task i is replaced in place, no other task changes, the length is kept |
| `TodoState.DeleteTask` | src/components/InputComponent.js:49-54 | `splice(index, 1)` drops exactly the task at index: the length falls by one, the others keep their relative order, the multiset loses that one task |
| `TodoState.DeleteTaskKeepsWellFormed` | src/components/InputComponent.js:49-54 | deleting keeps task texts distinct and non-blank |
| `TodoState.MoveTaskUp` | src/components/InputComponent.js:56-65 | for index > 0, positions index-1 and index trade places and nothing else changes; on index 0 the store is unchanged; the tasks are permuted |
| `TodoState.MoveTaskDown` | src/components/InputComponent.js:67-76 | below the last index, positions index and index+1 trade places and nothing else changes; on the last index the store is unchanged; the tasks are permuted |
| `TodoState.MoveDownThenUpRestores` | src/components/InputComponent.js:67-76 | moving task i down and then moving i+1 up gives back the original store |
| `TodoState.MoveUpThenDownRestores` | src/components/InputComponent.js:56-65 | moving task i up and then moving i-1 down gives back the original store |
| `TodoState.SwapKeepsWellFormed` | src/components/InputComponent.js:59-63 | exchanging two positions keeps task texts distinct and non-blank |
| `TodoState.MovesKeepWellFormed` | src/components/InputComponent.js:56-76 | both moves keep task texts distinct and non-blank |
| `TodoState.EditTask` | src/components/InputComponent.js:78-81 | beginning an edit copies the task's text into the field and opens an edit on that position, which is in range; list and message are untouched |
| `TodoState.ToggleTaskDone` | src/components/InputComponent.js:83-88 | the done flag of task index flips; its text and checked flag, every other task, and the other fields stay |
| `TodoState.ToggleTaskChecked` | src/components/InputComponent.js:100-105 | the checked flag of task index flips; its text and done flag, every other task, and the other fields stay |
| `TodoState.TogglesAreInvolutions` | src/components/InputComponent.js:83-105 | toggling the same flag of the same task twice gives back the original store, for both flags |
| `TodoState.TogglesKeepWellFormed` | src/components/InputComponent.js:83-105 | toggling keeps task texts distinct and non-blank |
| `TodoState.DeleteAllTasks` | src/components/InputComponent.js:90-92 | the list becomes empty and nothing else changes |
| `TodoState.DeleteAllDoneTasks` | src/components/InputComponent.js:94-98 | no done task remains; every task that is not done keeps its number of occurrences; nothing but the list changes |
| `TodoState.DeleteAllCheckedTasks` | src/components/InputComponent.js:107-111 | no checked task remains; every task that is not checked keeps its number of occurrences; nothing but the list changes |
| `TodoState.KeepAll` | src/components/InputComponent.js:109 | filtering a list where every entry passes returns the same list |
| `TodoState.KeepEmbeds` | src/components/InputComponent.js:96 | the filtered list is an order-preserving subsequence of the input, with the witness positions strictly increasing |
| `TodoState.BulkDeletesKeepOrder` | src/components/InputComponent.js:94-111 | after deleting all done tasks, or all checked tasks, the remaining tasks appear in their original relative order |
| `TodoState.BulkDeletesIdempotent` | src/components/InputComponent.js:94-111 | deleting all done tasks, or all checked tasks, a second time changes nothing |
| `TodoState.BulkDeletesKeepWellFormed` | src/components/InputComponent.js:90-111 | all three bulk deletes keep task texts distinct and non-blank |
| `InputComponent.CopyTasks` | src/components/InputComponent.js:39 | `[...tasks]` yields a fresh array whose contents equal the list |
| `InputComponent.TodoStore.constructor` | src/components/InputComponent.js:4-12 | the component mounts with an empty field, no tasks, no edit and no message, which satisfies the invariant |
| `InputComponent.TodoStore.HandleChange` | src/components/InputComponent.js:14-16 | the field takes the typed value and nothing else changes |
| `InputComponent.TodoStore.HandleAddTask` | src/components/InputComponent.js:18-47 | the new state is the `AddTask` commit of the old state, and the invariant is kept |
| `InputComponent.TodoStore.DeleteTask` | src/components/InputComponent.js:49-54 | the new state is the `DeleteTask` transition of the old one, and the invariant is kept |
| `InputComponent.TodoStore.MoveTaskUp` | src/components/InputComponent.js:56-65 | the in-array swap through a temporary yields the `MoveTaskUp` transition, and the invariant is kept |
| `InputComponent.TodoStore.MoveTaskDown` | src/components/InputComponent.js:67-76 | the in-array swap through a temporary yields the `MoveTaskDown` transition, and the invariant is kept |
| `InputComponent.TodoStore.EditTask` | src/components/InputComponent.js:78-81 | the new state is the `EditTask` transition of the old one, and the invariant is kept |
| `InputComponent.TodoStore.ToggleTaskDone` | src/components/InputComponent.js:83-88 | flipping the flag in the copied array yields the `ToggleTaskDone` transition, and the invariant is kept |
| `InputComponent.TodoStore.ToggleTaskChecked` | src/components/InputComponent.js:100-105 | flipping the flag in the copied array yields the `ToggleTaskChecked` transition, and the invariant is kept |
| `InputComponent.TodoStore.HandleDeleteAllTasks` | src/components/InputComponent.js:90-92 | the new state is the `DeleteAllTasks` transition of the old one, and the invariant is kept |
| `InputComponent.TodoStore.HandleDeleteAllDoneTasks` | src/components/InputComponent.js:94-98 | the new state is the `DeleteAllDoneTasks` transition of the old one, and the invariant is kept |
| `InputComponent.TodoStore.HandleDeleteAllCheckedTasks` | src/components/InputComponent.js:107-111 | the new state is the `DeleteAllCheckedTasks` transition of the old one, and the invariant is kept |

## Left out

- `render` and all JSX (`InputComponent.js:113-156`) are view projection and DOM event wiring. The only thing taken from them is that the buttons pass positions `0 <= index < |tasks|` (`:128-141`). Every index-taking member requires this.
- `handleChange` reads `event.target.value` (`:15`). The model takes the value as a parameter.
- React's `setState` scheduling and batching are not modelled. Each handler is one atomic transition, which is what the merged updates amount to.
- The toggles copy the array shallowly but flip the flag on the shared task object (`:86`, `:103`), so the previous state's array sees the flip too. The model updates element `index` as a value and does not capture this aliasing.
- JavaScript's behaviour for out-of-range positions is not modelled. That covers `splice` with a negative or too-large index (`:52`), reading `tasks[index].text` on a missing task (`:80`), and the moves and toggles beyond the list. Preconditions exclude these cases.
- `TodoState.AddTask` requires the edit index to be inside the list, and so does `InputComponent.TodoStore.HandleAddTask`. In JavaScript, an edit index equal to the length makes the commit append, and a larger one leaves holes in the array (`:40`). Deletes and bulk deletes can leave such a stale index behind, because they never adjust it.
- The view's checkbox after an edit is not modelled. An edited task has no `isChecked`, so its box gets `checked={undefined}` (`:130`) and becomes uncontrolled. Because list items are keyed by position (`:129`), React reuses the element, and a box that was ticked stays ticked on screen while the flag is falsy. "Delete All Checked Tasks" then keeps that task. The model captures only the handlers, which see the flag as false.
- Strings are sequences of Unicode scalar values, while JavaScript strings are UTF-16 code units. Unpaired surrogates and the UTF-16 view of `===` are not modelled. The white-space set is the full ECMAScript one.
