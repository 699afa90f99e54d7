/**
 * The in-memory task list of the application (a Pinia store): an ordered list
 * of tasks, three derived views, and four actions that change the list and
 * mirror it into one browser local-storage slot.
 */
module TodoStore {
  import opened Wrappers
  import opened Sequences

  /** One task. `id` is the millisecond clock reading taken when it was added. */
  datatype Task = Task(id: int, text: string, done: bool, createdAt: string)

  predicate IsActive(t: Task) { !t.done }

  predicate IsDone(t: Task) { t.done }

  /** The filter used by `deleteTask`: keep tasks whose id differs from `id`. */
  function HasOtherId(id: int): Task -> bool
  {
    (t: Task) => t.id != id
  }

  /** The `activeTasks` getter: the unfinished tasks, in list order. */
  function ActiveTasks(todos: seq<Task>): (r: seq<Task>)
    ensures forall i :: 0 <= i < |r| ==> r[i] in todos && !r[i].done
    ensures forall i :: 0 <= i < |todos| && !todos[i].done ==> todos[i] in r
  {
    Filter(todos, IsActive)
  }

  /** The `completedTasks` getter: the finished tasks, in list order. */
  function CompletedTasks(todos: seq<Task>): (r: seq<Task>)
    ensures forall i :: 0 <= i < |r| ==> r[i] in todos && r[i].done
    ensures forall i :: 0 <= i < |todos| && todos[i].done ==> todos[i] in r
  {
    Filter(todos, IsDone)
  }

  /** The `remaining` getter: how many positions of the list hold an unfinished task. */
  function Remaining(todos: seq<Task>): (n: nat)
    ensures n == |MatchIndices(todos, IsActive)|
  {
    FilterLength(todos, IsActive);
    |ActiveTasks(todos)|
  }

  /** The two views split the list: every task is in exactly one of them, with its multiplicity. */
  lemma ViewsPartition(todos: seq<Task>)
    ensures multiset(ActiveTasks(todos)) + multiset(CompletedTasks(todos)) == multiset(todos)
    ensures Remaining(todos) + |CompletedTasks(todos)| == |todos|
    ensures forall t :: t in ActiveTasks(todos) ==> t !in CompletedTasks(todos)
  {
    FilterPartition(todos, IsActive, IsDone);
  }

  /** Both views keep the list's order: the view of a concatenation is the concatenation of the views. */
  lemma ViewsKeepOrder(front: seq<Task>, back: seq<Task>)
    ensures ActiveTasks(front + back) == ActiveTasks(front) + ActiveTasks(back)
    ensures CompletedTasks(front + back) == CompletedTasks(front) + CompletedTasks(back)
  {
    FilterConcat(front, back, IsActive);
    FilterConcat(front, back, IsDone);
  }

  /** True when position `i` holds the first task of the list whose id is `id`. */
  predicate IsFirstMatch(todos: seq<Task>, id: int, i: int)
  {
    0 <= i < |todos| && todos[i].id == id && forall j :: 0 <= j < i ==> todos[j].id != id
  }

  /** `Array.prototype.find` by id: the position of the first task with that id, if any. */
  function FindIndex(todos: seq<Task>, id: int): (r: Option<nat>)
    ensures r.Some? ==> IsFirstMatch(todos, id, r.value)
    ensures r.None? ==> forall j :: 0 <= j < |todos| ==> todos[j].id != id
    decreases |todos|
  {
    if todos == [] then None
    else if todos[0].id == id then Some(0)
    else match FindIndex(todos[1..], id)
      case None => None
      case Some(i) => Some(i + 1)
  }

  /** The task with its completion flag inverted. */
  function Flip(t: Task): Task
  {
    t.(done := !t.done)
  }

  /** The list after `toggleTask(id)`: the first task with that id is flipped, nothing else changes. */
  function Toggled(todos: seq<Task>, id: int): (r: seq<Task>)
    ensures |r| == |todos|
    ensures forall i :: 0 <= i < |todos| ==>
              r[i] == (if IsFirstMatch(todos, id, i) then Flip(todos[i]) else todos[i])
    ensures forall i :: 0 <= i < |todos| ==> r[i].id == todos[i].id
  {
    match FindIndex(todos, id)
    case None => todos
    case Some(i) => todos[i := Flip(todos[i])]
  }

  /** Toggling the same id twice gives back the original list. */
  lemma ToggleTwice(todos: seq<Task>, id: int)
    ensures Toggled(Toggled(todos, id), id) == todos
  {
  }

  /** The list after `deleteTask(id)`: the tasks whose id differs, in their original order. */
  function Deleted(todos: seq<Task>, id: int): (r: seq<Task>)
    ensures forall i :: 0 <= i < |r| ==> r[i] in todos && r[i].id != id
    ensures forall i :: 0 <= i < |todos| && todos[i].id != id ==> todos[i] in r
  {
    Filter(todos, HasOtherId(id))
  }

  /** Deleting keeps order: deleting from a concatenation deletes from each part. */
  lemma DeletedKeepsOrder(front: seq<Task>, back: seq<Task>, id: int)
    ensures Deleted(front + back, id) == Deleted(front, id) + Deleted(back, id)
  {
    FilterConcat(front, back, HasOtherId(id));
  }

  /** Adding a task whose id no other task carries and then deleting that id restores the list. */
  lemma AddThenDelete(todos: seq<Task>, t: Task)
    requires forall i :: 0 <= i < |todos| ==> todos[i].id != t.id
    ensures Deleted([t] + todos, t.id) == todos
  {
    FilterConcat([t], todos, HasOtherId(t.id));
    assert Filter([t], HasOtherId(t.id)) == [];
    FilterKeepsAll(todos, HasOtherId(t.id));
  }

  /** After `clearCompleted` nothing is finished, every task counts as remaining, and clearing again changes nothing. */
  lemma ClearCompletedProperties(todos: seq<Task>)
    ensures ActiveTasks(ActiveTasks(todos)) == ActiveTasks(todos)
    ensures CompletedTasks(ActiveTasks(todos)) == []
    ensures Remaining(ActiveTasks(todos)) == |ActiveTasks(todos)|
  {
    var kept := ActiveTasks(todos);
    FilterIdempotent(todos, IsActive);
    FilterKeepsNone(kept, IsDone);
  }

  /**
   * The store: `todos` is the task list and `storage` the local-storage slot
   * under the key 'todo-vue-tasks' (`None` when the slot was never written).
   * JSON serialisation is taken as the identity.
   */
  class Store {
    var todos: seq<Task>
    var storage: Option<seq<Task>>

    /** The slot holds exactly the in-memory list. */
    ghost predicate Persisted()
      reads this
    {
      storage == Some(todos)
    }

    /** A fresh store: empty list, local storage as the browser provides it. */
    constructor (slot: Option<seq<Task>>)
      ensures todos == [] && storage == slot
    {
      todos := [];
      storage := slot;
    }

    /** `init`: load the list from the slot, or start empty when the slot is empty. */
    method Init()
      modifies this
      ensures storage == old(storage)
      ensures todos == (match storage case Some(saved) => saved case None => [])
      ensures storage.Some? ==> Persisted()
      ensures old(Persisted()) ==> todos == old(todos)
    {
      match storage
      case Some(saved) => todos := saved;
      case None => todos := [];
    }

    /** `persist`: write the list into the slot. */
    method Persist()
      modifies this
      ensures todos == old(todos)
      ensures Persisted()
    {
      storage := Some(todos);
    }

    /** `addTask`: put a new unfinished task at the front; `now` and `nowIso` are the clock readings. */
    method AddTask(text: string, now: int, nowIso: string)
      modifies this
      ensures todos == [Task(now, text, false, nowIso)] + old(todos)
      ensures |todos| == |old(todos)| + 1 && todos[1..] == old(todos)
      ensures Persisted()
    {
      var task := Task(now, text, false, nowIso);
      todos := [task] + todos;
      Persist();
    }

    /** `toggleTask`: flip the first task with this id; when there is none, nothing changes, storage included. */
    method ToggleTask(id: int)
      modifies this
      ensures todos == Toggled(old(todos), id)
      ensures FindIndex(old(todos), id).Some? ==> Persisted()
      ensures FindIndex(old(todos), id).None? ==> todos == old(todos) && storage == old(storage)
    {
      var found := FindIndex(todos, id);
      if found.Some? {
        var i := found.value;
        todos := todos[i := Flip(todos[i])];
        Persist();
      }
    }

    /** `deleteTask`: keep only the tasks with another id. */
    method DeleteTask(id: int)
      modifies this
      ensures todos == Deleted(old(todos), id)
      ensures forall i :: 0 <= i < |todos| ==> todos[i].id != id
      ensures Persisted()
    {
      todos := Filter(todos, HasOtherId(id));
      Persist();
    }

    /** `clearCompleted`: keep only the unfinished tasks. */
    method ClearCompleted()
      modifies this
      ensures todos == ActiveTasks(old(todos))
      ensures CompletedTasks(todos) == [] && Remaining(todos) == |todos|
      ensures Persisted()
    {
      todos := Filter(todos, IsActive);
      ClearCompletedProperties(old(todos));
      Persist();
    }
  }
}
