/**
 * The task list of src/hooks/use-tasks.tsx: `TaskList` holds the record types and the four
 * array transformations the provider applies through `setTasks`; `Tasks` holds the provider
 * with its load-once / save-after-load gating.
 */
module TaskList {
  import Sequences

  datatype Priority = Low | Medium | High | Urgent

  datatype Task = Task(id: int, title: string, subject: string, dueDate: string, completed: bool, priority: Priority)

  /** The form input: a task without its generated `id` and `completed` fields. */
  datatype TaskInput = TaskInput(title: string, subject: string, dueDate: string, priority: Priority)

  predicate HasId(tasks: seq<Task>, id: int) {
    exists i :: 0 <= i < |tasks| && tasks[i].id == id
  }

  /** `{ ...task, ...taskData }`: the input's fields over the task's. */
  function WithInput(task: Task, input: TaskInput): (r: Task)
    ensures r.id == task.id && r.completed == task.completed
    ensures r.title == input.title && r.subject == input.subject
    ensures r.dueDate == input.dueDate && r.priority == input.priority
  {
    task.(title := input.title, subject := input.subject, dueDate := input.dueDate, priority := input.priority)
  }

  /** `addTask`: one new, uncompleted task at the end; the id is supplied by the caller. */
  function AddTask(tasks: seq<Task>, id: int, input: TaskInput): (r: seq<Task>)
    ensures |r| == |tasks| + 1 && r[..|tasks|] == tasks
    ensures r[|tasks|] == Task(id, input.title, input.subject, input.dueDate, false, input.priority)
  {
    tasks + [Task(id, input.title, input.subject, input.dueDate, false, input.priority)]
  }

  /** `editTask`: every task with the id takes the input's fields; nothing else changes. */
  function EditTask(tasks: seq<Task>, id: int, input: TaskInput): (r: seq<Task>)
    ensures |r| == |tasks|
    ensures forall i :: 0 <= i < |tasks| ==> r[i].id == tasks[i].id && r[i].completed == tasks[i].completed
    ensures forall i :: 0 <= i < |tasks| && tasks[i].id == id ==>
              r[i].title == input.title && r[i].subject == input.subject
              && r[i].dueDate == input.dueDate && r[i].priority == input.priority
    ensures forall i :: 0 <= i < |tasks| && tasks[i].id != id ==> r[i] == tasks[i]
  {
    if tasks == [] then []
    else
      var head := if tasks[0].id == id then WithInput(tasks[0], input) else tasks[0];
      [head] + EditTask(tasks[1..], id, input)
  }

  /** `deleteTask`: the tasks without the id, in their original order. */
  function DeleteTask(tasks: seq<Task>, id: int): (r: seq<Task>)
    ensures !HasId(r, id)
    ensures forall t :: t in r <==> t in tasks && t.id != id
    ensures Sequences.IsSubsequence(r, tasks)
    ensures forall t: Task :: t.id != id ==> multiset(r)[t] == multiset(tasks)[t]
  {
    Sequences.Filter((t: Task) => t.id != id, tasks)
  }

  /** `toggleTaskComplete`: every task with the id has its `completed` flag flipped; nothing else changes. */
  function ToggleTaskComplete(tasks: seq<Task>, id: int): (r: seq<Task>)
    ensures |r| == |tasks|
    ensures forall i :: 0 <= i < |tasks| && tasks[i].id == id ==>
              r[i] == tasks[i].(completed := !tasks[i].completed)
    ensures forall i :: 0 <= i < |tasks| && tasks[i].id != id ==> r[i] == tasks[i]
  {
    if tasks == [] then []
    else
      var head := if tasks[0].id == id then tasks[0].(completed := !tasks[0].completed) else tasks[0];
      [head] + ToggleTaskComplete(tasks[1..], id)
  }

  /** Toggling the same id twice restores the list. */
  lemma ToggleTwice(tasks: seq<Task>, id: int)
    ensures ToggleTaskComplete(ToggleTaskComplete(tasks, id), id) == tasks
  {
    var once := ToggleTaskComplete(tasks, id);
    assert forall i :: 0 <= i < |once| ==> once[i].id == tasks[i].id;
  }

  /** An id that no task carries: editing, deleting and toggling leave the list as it is. */
  lemma AbsentIdChangesNothing(tasks: seq<Task>, id: int, input: TaskInput)
    requires !HasId(tasks, id)
    ensures EditTask(tasks, id, input) == tasks
    ensures DeleteTask(tasks, id) == tasks
    ensures ToggleTaskComplete(tasks, id) == tasks
  {
    Sequences.FilterKeepsAll((t: Task) => t.id != id, tasks);
  }

  /** Deleting the id of a task just added removes it, and with it every older task with that id. */
  lemma DeleteAfterAdd(tasks: seq<Task>, id: int, input: TaskInput)
    ensures DeleteTask(AddTask(tasks, id, input), id) == DeleteTask(tasks, id)
  {
    var added := Task(id, input.title, input.subject, input.dueDate, false, input.priority);
    Sequences.FilterAppend((t: Task) => t.id != id, tasks, [added]);
  }

  /** Adding never changes what a later delete of another id keeps from the old list. */
  lemma DeleteOtherAfterAdd(tasks: seq<Task>, id: int, other: int, input: TaskInput)
    requires other != id
    ensures DeleteTask(AddTask(tasks, id, input), other)
         == DeleteTask(tasks, other) + [Task(id, input.title, input.subject, input.dueDate, false, input.priority)]
  {
    var added := Task(id, input.title, input.subject, input.dueDate, false, input.priority);
    Sequences.FilterAppend((t: Task) => t.id != other, tasks, [added]);
  }

  /** Editing and toggling touch disjoint fields, so they commute. */
  lemma EditToggleCommute(tasks: seq<Task>, editId: int, toggleId: int, input: TaskInput)
    ensures EditTask(ToggleTaskComplete(tasks, toggleId), editId, input)
         == ToggleTaskComplete(EditTask(tasks, editId, input), toggleId)
  {
    var a := EditTask(ToggleTaskComplete(tasks, toggleId), editId, input);
    var b := ToggleTaskComplete(EditTask(tasks, editId, input), toggleId);
    assert |a| == |b|;
    forall i | 0 <= i < |a| ensures a[i] == b[i] {
    }
  }
}

/** The provider: the task array, the `isLoaded` flag, and what it has written to storage. */
module Tasks {
  import opened Wrappers
  import opened TaskList

  /** What reading storage under 'tasks' gives: nothing (or an empty string), a parsed array, or a failure. */
  datatype StoredTasks = Missing | Parsed(tasks: seq<Task>) | Unreadable

  class TaskProvider {
    var tasks: seq<Task>
    var isLoaded: bool
    /** The array last written to storage in this session; `None` while nothing has been written. */
    var saved: Option<seq<Task>>

    /** Nothing is written before loading finishes; afterwards storage mirrors the array. */
    ghost predicate Valid()
      reads this
    {
      (!isLoaded ==> saved == None) && (isLoaded ==> saved == Some(tasks))
    }

    constructor ()
      ensures Valid() && tasks == [] && !isLoaded && saved == None
    {
      tasks := [];
      isLoaded := false;
      saved := None;
    }

    /** The save effect: it runs after every change of the array or of `isLoaded`. */
    method SaveEffect()
      modifies this`saved
      ensures saved == if isLoaded then Some(tasks) else old(saved)
    {
      if isLoaded {
        saved := Some(tasks);
      }
    }

    /** The mount effect: take a parsed array when there is one, and mark loading done in any case. */
    method Load(stored: StoredTasks)
      modifies this
      ensures Valid() && isLoaded
      ensures tasks == if stored.Parsed? then stored.tasks else old(tasks)
    {
      match stored {
        case Parsed(loaded) => tasks := loaded;
        case Missing =>
        case Unreadable =>
      }
      isLoaded := true;
      SaveEffect();
    }

    method AddTask(id: int, input: TaskInput)
      requires Valid()
      modifies this
      ensures Valid() && isLoaded == old(isLoaded)
      ensures tasks == TaskList.AddTask(old(tasks), id, input)
    {
      tasks := TaskList.AddTask(tasks, id, input);
      SaveEffect();
    }

    method EditTask(id: int, input: TaskInput)
      requires Valid()
      modifies this
      ensures Valid() && isLoaded == old(isLoaded)
      ensures tasks == TaskList.EditTask(old(tasks), id, input)
    {
      tasks := TaskList.EditTask(tasks, id, input);
      SaveEffect();
    }

    method DeleteTask(id: int)
      requires Valid()
      modifies this
      ensures Valid() && isLoaded == old(isLoaded)
      ensures tasks == TaskList.DeleteTask(old(tasks), id)
    {
      tasks := TaskList.DeleteTask(tasks, id);
      SaveEffect();
    }

    method ToggleTaskComplete(id: int)
      requires Valid()
      modifies this
      ensures Valid() && isLoaded == old(isLoaded)
      ensures tasks == TaskList.ToggleTaskComplete(old(tasks), id)
    {
      tasks := TaskList.ToggleTaskComplete(tasks, id);
      SaveEffect();
    }
  }
}
