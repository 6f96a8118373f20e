/**
 * The to-do list component as an object: its four state fields and one method
 * per event handler. Each handler updates the fields in one atomic step, and
 * its postcondition ties the new state to the corresponding transition of
 * TodoState, whose lemmas say what the transition promises.
 */
module InputComponent {
  import opened JsString
  import opened TodoState

  /** `[...tasks]`: a fresh array holding a copy of the list. */
  method CopyTasks(tasks: seq<Task>) returns (a: array<Task>)
    ensures fresh(a) && a[..] == tasks
  {
    a := new Task[|tasks|](k requires 0 <= k < |tasks| => tasks[k]);
  }

  class TodoStore {
    var inputValue: string
    var tasks: seq<Task>
    var editIndex: Option<nat>
    var errorMessage: string

    /** The four fields as one value. */
    function State(): Store
      reads this
    {
      Store(inputValue, tasks, editIndex, errorMessage)
    }

    /** Task texts are distinct and none is blank. */
    ghost predicate Valid()
      reads this
    {
      WellFormed(State())
    }

    constructor ()
      ensures State() == Initial && Valid()
    {
      inputValue := "";
      tasks := [];
      editIndex := None;
      errorMessage := "";
    }

    /** handleChange: the text field takes the typed value, unchecked. */
    method HandleChange(value: string)
      modifies this
      ensures State() == old(State()).(inputValue := value)
      ensures old(Valid()) ==> Valid()
    {
      inputValue := value;
    }

    /** handleAddTask: validate the field, then append a task or replace the
        task under edit. */
    method HandleAddTask()
      requires EditIndexInRange(State())
      modifies this
      ensures State() == AddTask(old(State()))
      ensures old(Valid()) ==> Valid()
    {
      ghost var before := State();
      if WellFormed(before) {
        CommitKeepsWellFormed(before);
      }
      if Trim(inputValue) == "" {
        return;
      }
      var taskExists := TextExists(tasks, inputValue);
      if taskExists {
        errorMessage := DuplicateMessage;
        return;
      }
      errorMessage := "";
      var task := Task(inputValue, false, false);
      if editIndex.Some? {
        var updatedTasks := CopyTasks(tasks);
        updatedTasks[editIndex.value] := task;
        assert updatedTasks[..] == before.tasks[before.editIndex.value := task];
        tasks, editIndex := updatedTasks[..], None;
      } else {
        tasks := tasks + [task];
      }
      inputValue := "";
    }

    method DeleteTask(index: nat)
      requires index < |tasks|
      modifies this
      ensures State() == TodoState.DeleteTask(old(State()), index)
      ensures old(Valid()) ==> Valid()
    {
      if Valid() {
        DeleteTaskKeepsWellFormed(State(), index);
      }
      tasks := tasks[..index] + tasks[index + 1..];
    }

    method MoveTaskUp(index: nat)
      requires index < |tasks|
      modifies this
      ensures State() == TodoState.MoveTaskUp(old(State()), index)
      ensures old(Valid()) ==> Valid()
    {
      if Valid() {
        MovesKeepWellFormed(State(), index);
      }
      if index > 0 {
        var updatedTasks := CopyTasks(tasks);
        var temp := updatedTasks[index];
        updatedTasks[index] := updatedTasks[index - 1];
        updatedTasks[index - 1] := temp;
        tasks := updatedTasks[..];
      }
    }

    method MoveTaskDown(index: nat)
      requires index < |tasks|
      modifies this
      ensures State() == TodoState.MoveTaskDown(old(State()), index)
      ensures old(Valid()) ==> Valid()
    {
      if Valid() {
        MovesKeepWellFormed(State(), index);
      }
      if index < |tasks| - 1 {
        var updatedTasks := CopyTasks(tasks);
        var temp := updatedTasks[index];
        updatedTasks[index] := updatedTasks[index + 1];
        updatedTasks[index + 1] := temp;
        tasks := updatedTasks[..];
      }
    }

    method EditTask(index: nat)
      requires index < |tasks|
      modifies this
      ensures State() == TodoState.EditTask(old(State()), index)
      ensures old(Valid()) ==> Valid()
    {
      inputValue, editIndex := tasks[index].text, Some(index);
    }

    method ToggleTaskDone(index: nat)
      requires index < |tasks|
      modifies this
      ensures State() == TodoState.ToggleTaskDone(old(State()), index)
      ensures old(Valid()) ==> Valid()
    {
      if Valid() {
        TogglesKeepWellFormed(State(), index);
      }
      var updatedTasks := CopyTasks(tasks);
      updatedTasks[index] := updatedTasks[index].(isDone := !updatedTasks[index].isDone);
      tasks := updatedTasks[..];
    }

    method ToggleTaskChecked(index: nat)
      requires index < |tasks|
      modifies this
      ensures State() == TodoState.ToggleTaskChecked(old(State()), index)
      ensures old(Valid()) ==> Valid()
    {
      if Valid() {
        TogglesKeepWellFormed(State(), index);
      }
      var updatedTasks := CopyTasks(tasks);
      updatedTasks[index] := updatedTasks[index].(isChecked := !updatedTasks[index].isChecked);
      tasks := updatedTasks[..];
    }

    method HandleDeleteAllTasks()
      modifies this
      ensures State() == DeleteAllTasks(old(State()))
      ensures old(Valid()) ==> Valid()
    {
      tasks := [];
    }

    method HandleDeleteAllDoneTasks()
      modifies this
      ensures State() == DeleteAllDoneTasks(old(State()))
      ensures old(Valid()) ==> Valid()
    {
      if Valid() {
        BulkDeletesKeepWellFormed(State());
      }
      tasks := Keep(tasks, NotDone);
    }

    method HandleDeleteAllCheckedTasks()
      modifies this
      ensures State() == DeleteAllCheckedTasks(old(State()))
      ensures old(Valid()) ==> Valid()
    {
      if Valid() {
        BulkDeletesKeepWellFormed(State());
      }
      tasks := Keep(tasks, NotChecked);
    }
  }

  /** A client that relies on the contracts alone: two tasks are added and a
      third commit with an existing text is rejected. */
  method UsageExample() {
    var milk, dog := Task("buy milk", false, false), Task("walk dog", false, false);
    assert !IsWhitespace(milk.text[0]) && !IsWhitespace(dog.text[0]);
    var store := new TodoStore();
    store.HandleChange(milk.text);
    CommitAppends(store.State());
    store.HandleAddTask();
    assert store.State() == Store("", [milk], None, "");

    store.HandleChange(dog.text);
    CommitAppends(store.State());
    store.HandleAddTask();
    assert store.State() == Store("", [milk, dog], None, "");

    store.HandleChange(milk.text);
    CommitDuplicateOnlySetsError(store.State(), 0);
    store.HandleAddTask();
    assert store.State() == Store(milk.text, [milk, dog], None, DuplicateMessage);
  }

  /** A client that toggles the first task and moves it down and back up: only
      its done flag differs in the end. */
  method ReorderExample(store: TodoStore)
    requires 2 <= |store.tasks|
    modifies store
  {
    var first, second := store.tasks[0], store.tasks[1];
    store.ToggleTaskDone(0);
    assert store.tasks[0].isDone != first.isDone && store.tasks[1] == second;

    var before := store.State();
    store.MoveTaskDown(0);
    assert store.tasks[1].text == first.text;
    store.MoveTaskUp(1);
    MoveDownThenUpRestores(before, 0);
    assert store.State() == before;
  }
}
