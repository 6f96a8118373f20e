/**
 * The state of the to-do list component and its event handlers, written as
 * pure transitions from one state to the next. Each handler of the component
 * runs as one atomic update, so each becomes one function `Store -> Store`.
 * The lemmas state what the handlers promise and which invariants they keep.
 */
module TodoState {
  import opened JsString

  /** One to-do entry. */
  datatype Task = Task(text: string, isDone: bool, isChecked: bool)

  datatype Option<T> = None | Some(value: T)

  /** The component's state: the text field, the list, the task under edit
      (if any) and the message shown below the list. */
  datatype Store = Store(inputValue: string, tasks: seq<Task>, editIndex: Option<nat>, errorMessage: string)

  const DuplicateMessage: string := "This task already exists."

  /** The state at mount time. */
  const Initial: Store := Store("", [], None, "")

  /** The texts of the list are pairwise distinct. */
  ghost predicate DistinctTexts(tasks: seq<Task>) {
    forall i, j :: 0 <= i < j < |tasks| ==> tasks[i].text != tasks[j].text
  }

  /** What every reachable state satisfies: task texts are distinct and none
      of them is blank. */
  ghost predicate WellFormed(s: Store) {
    && DistinctTexts(s.tasks)
    && forall k :: 0 <= k < |s.tasks| ==> !IsBlank(s.tasks[k].text)
  }

  /** The task under edit, if any, is still in the list. */
  predicate EditIndexInRange(s: Store) {
    s.editIndex.Some? ==> s.editIndex.value < |s.tasks|
  }

  /** `r` is `ts` with some entries left out and the rest in their original order:
      `idx` says where each entry of `r` comes from. */
  ghost predicate Embeds(idx: seq<nat>, r: seq<Task>, ts: seq<Task>) {
    && |idx| == |r|
    && (forall k :: 0 <= k < |idx| ==> idx[k] < |ts| && r[k] == ts[idx[k]])
    && (forall k, l :: 0 <= k < l < |idx| ==> idx[k] < idx[l])
  }

  ghost predicate IsSubsequence(r: seq<Task>, ts: seq<Task>) {
    exists idx :: Embeds(idx, r, ts)
  }

  // ----- Pure helpers of the handlers ---------------------------------------

  /** `tasks.some(task => task.text === text)`. */
  function TextExists(tasks: seq<Task>, text: string): (r: bool)
    ensures r <==> exists k :: 0 <= k < |tasks| && tasks[k].text == text
  {
    if tasks == [] then false
    else tasks[0].text == text || TextExists(tasks[1..], text)
  }

  /** `tasks.filter(keep)`: the entries that satisfy `keep`, each as often as in
      `ts`. */
  function Keep(ts: seq<Task>, keep: Task -> bool): (r: seq<Task>)
    ensures |r| <= |ts|
    ensures forall k :: 0 <= k < |r| ==> keep(r[k])
    ensures forall t :: multiset(r)[t] == if keep(t) then multiset(ts)[t] else 0
  {
    if ts == [] then []
    else
      assert ts == [ts[0]] + ts[1..];
      (if keep(ts[0]) then [ts[0]] else []) + Keep(ts[1..], keep)
  }

  predicate NotDone(t: Task) { !t.isDone }

  predicate NotChecked(t: Task) { !t.isChecked }

  /** The two entries at `i` and `j` trade places. */
  function Swap(ts: seq<Task>, i: nat, j: nat): (r: seq<Task>)
    requires i < |ts| && j < |ts|
    ensures |r| == |ts| && r[i] == ts[j] && r[j] == ts[i]
    ensures forall k :: 0 <= k < |ts| && k != i && k != j ==> r[k] == ts[k]
    ensures multiset(r) == multiset(ts)
  {
    ts[i := ts[j]][j := ts[i]]
  }

  // ----- The handlers -------------------------------------------------------

  /** handleAddTask: commit the text field, as a new task or over the task
      under edit. */
  function AddTask(s: Store): (r: Store)
    requires EditIndexInRange(s)
    ensures EditIndexInRange(r)
  {
    if Trim(s.inputValue) == "" then s
    else if TextExists(s.tasks, s.inputValue) then s.(errorMessage := DuplicateMessage)
    else
      var task := Task(s.inputValue, false, false);
      match s.editIndex
      case Some(i) => Store("", s.tasks[i := task], None, "")
      case None => Store("", s.tasks + [task], None, "")
  }

  /** deleteTask: the task at `index` leaves the list; the others keep their order. */
  function DeleteTask(s: Store, index: nat): (r: Store)
    requires index < |s.tasks|
    ensures r.(tasks := s.tasks) == s
    ensures |r.tasks| == |s.tasks| - 1
    ensures forall k :: 0 <= k < index ==> r.tasks[k] == s.tasks[k]
    ensures forall k :: index <= k < |r.tasks| ==> r.tasks[k] == s.tasks[k + 1]
    ensures multiset(r.tasks) == multiset(s.tasks) - multiset{s.tasks[index]}
  {
    assert s.tasks == s.tasks[..index] + [s.tasks[index]] + s.tasks[index + 1..];
    s.(tasks := s.tasks[..index] + s.tasks[index + 1..])
  }

  /** moveTaskUp: the task at `index` trades places with the one above it; on the
      first task nothing happens. */
  function MoveTaskUp(s: Store, index: nat): (r: Store)
    requires index < |s.tasks|
    ensures r.(tasks := s.tasks) == s
    ensures |r.tasks| == |s.tasks| && multiset(r.tasks) == multiset(s.tasks)
    ensures 0 < index ==> r.tasks[index - 1] == s.tasks[index] && r.tasks[index] == s.tasks[index - 1]
    ensures forall k :: 0 <= k < |s.tasks| && k != index && k + 1 != index ==> r.tasks[k] == s.tasks[k]
    ensures index == 0 ==> r == s
  {
    if index > 0 then s.(tasks := Swap(s.tasks, index - 1, index)) else s
  }

  /** moveTaskDown: the task at `index` trades places with the one below it; on
      the last task nothing happens. */
  function MoveTaskDown(s: Store, index: nat): (r: Store)
    requires index < |s.tasks|
    ensures r.(tasks := s.tasks) == s
    ensures |r.tasks| == |s.tasks| && multiset(r.tasks) == multiset(s.tasks)
    ensures index + 1 < |s.tasks| ==> r.tasks[index] == s.tasks[index + 1] && r.tasks[index + 1] == s.tasks[index]
    ensures forall k :: 0 <= k < |s.tasks| && k != index && k != index + 1 ==> r.tasks[k] == s.tasks[k]
    ensures index == |s.tasks| - 1 ==> r == s
  {
    if index < |s.tasks| - 1 then s.(tasks := Swap(s.tasks, index, index + 1)) else s
  }

  /** editTask: the text field takes the task's text and the task is marked as
      the one under edit; the list itself is left alone. */
  function EditTask(s: Store, index: nat): (r: Store)
    requires index < |s.tasks|
    ensures r.tasks == s.tasks && r.errorMessage == s.errorMessage
    ensures r.inputValue == s.tasks[index].text && r.editIndex == Some(index)
    ensures EditIndexInRange(r)
  {
    s.(inputValue := s.tasks[index].text, editIndex := Some(index))
  }

  /** toggleTaskDone: only the done flag of only the task at `index` flips. */
  function ToggleTaskDone(s: Store, index: nat): (r: Store)
    requires index < |s.tasks|
    ensures r.(tasks := s.tasks) == s && |r.tasks| == |s.tasks|
    ensures r.tasks[index].isDone != s.tasks[index].isDone
    ensures r.tasks[index] == s.tasks[index].(isDone := r.tasks[index].isDone)
    ensures forall k :: 0 <= k < |s.tasks| && k != index ==> r.tasks[k] == s.tasks[k]
  {
    s.(tasks := s.tasks[index := s.tasks[index].(isDone := !s.tasks[index].isDone)])
  }

  /** toggleTaskChecked: only the checked flag of only the task at `index` flips. */
  function ToggleTaskChecked(s: Store, index: nat): (r: Store)
    requires index < |s.tasks|
    ensures r.(tasks := s.tasks) == s && |r.tasks| == |s.tasks|
    ensures r.tasks[index].isChecked != s.tasks[index].isChecked
    ensures r.tasks[index] == s.tasks[index].(isChecked := r.tasks[index].isChecked)
    ensures forall k :: 0 <= k < |s.tasks| && k != index ==> r.tasks[k] == s.tasks[k]
  {
    s.(tasks := s.tasks[index := s.tasks[index].(isChecked := !s.tasks[index].isChecked)])
  }

  /** handleDeleteAllTasks: the list becomes empty, nothing else changes. */
  function DeleteAllTasks(s: Store): (r: Store)
    ensures r.(tasks := s.tasks) == s
    ensures |r.tasks| == 0
  {
    s.(tasks := [])
  }

  /** handleDeleteAllDoneTasks: no done task is left, and every other task stays
      as often as it was there. */
  function DeleteAllDoneTasks(s: Store): (r: Store)
    ensures r.(tasks := s.tasks) == s
    ensures forall k :: 0 <= k < |r.tasks| ==> !r.tasks[k].isDone
    ensures forall t :: multiset(r.tasks)[t] == if t.isDone then 0 else multiset(s.tasks)[t]
  {
    s.(tasks := Keep(s.tasks, NotDone))
  }

  /** handleDeleteAllCheckedTasks: no checked task is left, and every other task
      stays as often as it was there. */
  function DeleteAllCheckedTasks(s: Store): (r: Store)
    ensures r.(tasks := s.tasks) == s
    ensures forall k :: 0 <= k < |r.tasks| ==> !r.tasks[k].isChecked
    ensures forall t :: multiset(r.tasks)[t] == if t.isChecked then 0 else multiset(s.tasks)[t]
  {
    s.(tasks := Keep(s.tasks, NotChecked))
  }

  // ----- Committing the text field ------------------------------------------

  /** Blank input is silent: nothing changes, not even the message. */
  lemma CommitBlankChangesNothing(s: Store)
    requires EditIndexInRange(s) && IsBlank(s.inputValue)
    ensures AddTask(s) == s
  {
  }

  /** Text equal to some task's text (untrimmed, the task under edit included)
      only sets the duplicate message. */
  lemma CommitDuplicateOnlySetsError(s: Store, k: nat)
    requires EditIndexInRange(s) && !IsBlank(s.inputValue)
    requires k < |s.tasks| && s.tasks[k].text == s.inputValue
    ensures AddTask(s) == s.(errorMessage := DuplicateMessage)
  {
  }

  /** With no task under edit, new text is appended as a fresh task and the
      field and message are cleared. */
  lemma CommitAppends(s: Store)
    requires s.editIndex == None && !IsBlank(s.inputValue)
    requires forall k :: 0 <= k < |s.tasks| ==> s.tasks[k].text != s.inputValue
    ensures var r := AddTask(s);
      && |r.tasks| == |s.tasks| + 1
      && r.tasks[..|s.tasks|] == s.tasks
      && r.tasks[|s.tasks|] == Task(s.inputValue, false, false)
      && r.inputValue == "" && r.errorMessage == "" && r.editIndex == None
  {
  }

  /** With task `i` under edit, new text replaces that task only (both flags
      reset) and the edit ends. */
  lemma CommitReplacesEdited(s: Store, i: nat)
    requires s.editIndex == Some(i) && i < |s.tasks| && !IsBlank(s.inputValue)
    requires forall k :: 0 <= k < |s.tasks| ==> s.tasks[k].text != s.inputValue
    ensures var r := AddTask(s);
      && |r.tasks| == |s.tasks|
      && r.tasks[i] == Task(s.inputValue, false, false)
      && (forall k :: 0 <= k < |s.tasks| && k != i ==> r.tasks[k] == s.tasks[k])
      && r.inputValue == "" && r.errorMessage == "" && r.editIndex == None
  {
  }

  /** Appending a task whose text is non-blank and new keeps the invariant. */
  lemma AppendKeepsWellFormed(s: Store, task: Task)
    requires WellFormed(s) && !IsBlank(task.text)
    requires forall k :: 0 <= k < |s.tasks| ==> s.tasks[k].text != task.text
    ensures WellFormed(s.(tasks := s.tasks + [task]))
  {
    var r := s.tasks + [task];
    forall a, b | 0 <= a < b < |r|
      ensures r[a].text != r[b].text
    {
      assert r[a] == s.tasks[a];
    }
  }

  /** Putting a task whose text is non-blank and new at position `i` keeps the
      invariant. */
  lemma ReplaceKeepsWellFormed(s: Store, i: nat, task: Task)
    requires i < |s.tasks| && WellFormed(s) && !IsBlank(task.text)
    requires forall k :: 0 <= k < |s.tasks| ==> s.tasks[k].text != task.text
    ensures WellFormed(s.(tasks := s.tasks[i := task]))
  {
    var r := s.tasks[i := task];
    forall a, b | 0 <= a < b < |r|
      ensures r[a].text != r[b].text
    {
      if a != i && b != i {
        assert r[a] == s.tasks[a] && r[b] == s.tasks[b];
      }
    }
  }

  /** Committing keeps task texts distinct and non-blank, whatever the branch. */
  lemma CommitKeepsWellFormed(s: Store)
    requires EditIndexInRange(s) && WellFormed(s)
    ensures WellFormed(AddTask(s))
  {
    if Trim(s.inputValue) != "" && !TextExists(s.tasks, s.inputValue) {
      var task := Task(s.inputValue, false, false);
      match s.editIndex
      case Some(i) =>
        ReplaceKeepsWellFormed(s, i, task);
        assert AddTask(s) == Store("", s.tasks[i := task], None, "");
      case None =>
        AppendKeepsWellFormed(s, task);
        assert AddTask(s) == Store("", s.tasks + [task], None, "");
    }
  }

  /** Starting an edit and committing without changing the text reports a
      duplicate: the check also looks at the task under edit. */
  lemma RecommitUnchangedEditIsDuplicate(s: Store, i: nat)
    requires i < |s.tasks| && !IsBlank(s.tasks[i].text)
    ensures AddTask(EditTask(s, i)) == EditTask(s, i).(errorMessage := DuplicateMessage)
  {
  }

  /** Starting an edit, typing a new unique text and committing replaces the
      task in place: the list keeps its length. */
  lemma EditThenCommitReplaces(s: Store, i: nat, text: string)
    requires i < |s.tasks| && !IsBlank(text)
    requires forall k :: 0 <= k < |s.tasks| ==> s.tasks[k].text != text
    ensures var r := AddTask(EditTask(s, i).(inputValue := text));
      && |r.tasks| == |s.tasks|
      && r.tasks[i] == Task(text, false, false)
      && (forall k :: 0 <= k < |s.tasks| && k != i ==> r.tasks[k] == s.tasks[k])
      && r.editIndex == None && r.inputValue == ""
  {
  }

  // ----- Reordering, deleting, toggling -------------------------------------

  /** Moving a task down and then moving it back up restores the list. */
  lemma MoveDownThenUpRestores(s: Store, i: nat)
    requires i + 1 < |s.tasks|
    ensures MoveTaskUp(MoveTaskDown(s, i), i + 1) == s
  {
  }

  /** Moving a task up and then moving it back down restores the list. */
  lemma MoveUpThenDownRestores(s: Store, i: nat)
    requires 0 < i < |s.tasks|
    ensures MoveTaskDown(MoveTaskUp(s, i), i - 1) == s
  {
  }

  /** Trading two entries' places keeps the invariant. */
  lemma SwapKeepsWellFormed(s: Store, i: nat, j: nat)
    requires i < |s.tasks| && j < |s.tasks| && WellFormed(s)
    ensures WellFormed(s.(tasks := Swap(s.tasks, i, j)))
  {
    var r := Swap(s.tasks, i, j);
    forall a, b | 0 <= a < b < |r|
      ensures r[a].text != r[b].text
    {
      var from_a := if a == i then j else if a == j then i else a;
      var from_b := if b == i then j else if b == j then i else b;
      assert r[a] == s.tasks[from_a] && r[b] == s.tasks[from_b];
    }
    forall k | 0 <= k < |r|
      ensures !IsBlank(r[k].text)
    {
      assert r[k] == s.tasks[if k == i then j else if k == j then i else k];
    }
  }

  /** Reordering keeps the invariant. */
  lemma MovesKeepWellFormed(s: Store, index: nat)
    requires index < |s.tasks| && WellFormed(s)
    ensures WellFormed(MoveTaskUp(s, index)) && WellFormed(MoveTaskDown(s, index))
  {
    if 0 < index {
      SwapKeepsWellFormed(s, index - 1, index);
      assert MoveTaskUp(s, index) == s.(tasks := Swap(s.tasks, index - 1, index));
    }
    if index + 1 < |s.tasks| {
      SwapKeepsWellFormed(s, index, index + 1);
      assert MoveTaskDown(s, index) == s.(tasks := Swap(s.tasks, index, index + 1));
    }
  }

  /** Deleting keeps the invariant. */
  lemma DeleteTaskKeepsWellFormed(s: Store, index: nat)
    requires index < |s.tasks| && WellFormed(s)
    ensures WellFormed(DeleteTask(s, index))
  {
  }

  /** Each toggle undoes itself. */
  lemma TogglesAreInvolutions(s: Store, index: nat)
    requires index < |s.tasks|
    ensures ToggleTaskDone(ToggleTaskDone(s, index), index) == s
    ensures ToggleTaskChecked(ToggleTaskChecked(s, index), index) == s
  {
  }

  /** Toggling keeps the invariant: texts are not touched. */
  lemma TogglesKeepWellFormed(s: Store, index: nat)
    requires index < |s.tasks| && WellFormed(s)
    ensures WellFormed(ToggleTaskDone(s, index)) && WellFormed(ToggleTaskChecked(s, index))
  {
  }

  // ----- Filtering ----------------------------------------------------------

  /** A filter that drops nothing returns the list as it was. */
  lemma {:induction false} KeepAll(ts: seq<Task>, keep: Task -> bool)
    requires forall k :: 0 <= k < |ts| ==> keep(ts[k])
    ensures Keep(ts, keep) == ts
  {
    if ts != [] {
      KeepAll(ts[1..], keep);
    }
  }

  /** An embedding into the tail of `ts` is one into `ts`, shifted by one place;
      and `ts[0]` can be put in front of it. */
  lemma ShiftEmbeds(rest: seq<nat>, tail: seq<Task>, ts: seq<Task>) returns (shifted: seq<nat>)
    requires ts != [] && Embeds(rest, tail, ts[1..])
    ensures Embeds(shifted, tail, ts)
    ensures Embeds([0] + shifted, [ts[0]] + tail, ts)
  {
    shifted := seq(|rest|, k requires 0 <= k < |rest| => rest[k] + 1);
    forall k | 0 <= k < |shifted|
      ensures shifted[k] < |ts| && tail[k] == ts[shifted[k]]
    {
      assert tail[k] == ts[1..][rest[k]];
    }
    var front := [0] + shifted;
    forall k | 0 <= k < |front|
      ensures front[k] < |ts| && ([ts[0]] + tail)[k] == ts[front[k]]
    {
      if k > 0 {
        assert front[k] == shifted[k - 1];
      }
    }
  }

  /** Filtering is order-preserving: the result is a subsequence of the input. */
  lemma {:induction false} KeepEmbeds(ts: seq<Task>, keep: Task -> bool) returns (idx: seq<nat>)
    ensures Embeds(idx, Keep(ts, keep), ts)
  {
    if ts == [] {
      idx := [];
    } else {
      var tail := Keep(ts[1..], keep);
      var rest := KeepEmbeds(ts[1..], keep);
      var shifted := ShiftEmbeds(rest, tail, ts);
      if keep(ts[0]) {
        assert Keep(ts, keep) == [ts[0]] + tail;
        idx := [0] + shifted;
      } else {
        assert Keep(ts, keep) == tail;
        idx := shifted;
      }
    }
  }

  /** A subsequence of a well-formed list is well-formed. */
  lemma SubsequenceKeepsWellFormed(idx: seq<nat>, r: seq<Task>, s: Store)
    requires Embeds(idx, r, s.tasks) && WellFormed(s)
    ensures WellFormed(s.(tasks := r))
  {
  }

  /** Bulk deletes keep the remaining tasks in their original order. */
  lemma BulkDeletesKeepOrder(s: Store)
    ensures IsSubsequence(DeleteAllDoneTasks(s).tasks, s.tasks)
    ensures IsSubsequence(DeleteAllCheckedTasks(s).tasks, s.tasks)
  {
    var done := KeepEmbeds(s.tasks, NotDone);
    var checked := KeepEmbeds(s.tasks, NotChecked);
  }

  /** Bulk deletes are idempotent: a second application changes nothing. */
  lemma BulkDeletesIdempotent(s: Store)
    ensures DeleteAllDoneTasks(DeleteAllDoneTasks(s)) == DeleteAllDoneTasks(s)
    ensures DeleteAllCheckedTasks(DeleteAllCheckedTasks(s)) == DeleteAllCheckedTasks(s)
  {
    KeepAll(Keep(s.tasks, NotDone), NotDone);
    KeepAll(Keep(s.tasks, NotChecked), NotChecked);
  }

  /** Bulk deletes keep the invariant. */
  lemma BulkDeletesKeepWellFormed(s: Store)
    requires WellFormed(s)
    ensures WellFormed(DeleteAllTasks(s))
    ensures WellFormed(DeleteAllDoneTasks(s))
    ensures WellFormed(DeleteAllCheckedTasks(s))
  {
    var done := KeepEmbeds(s.tasks, NotDone);
    SubsequenceKeepsWellFormed(done, Keep(s.tasks, NotDone), s);
    var checked := KeepEmbeds(s.tasks, NotChecked);
    SubsequenceKeepsWellFormed(checked, Keep(s.tasks, NotChecked), s);
  }
}
