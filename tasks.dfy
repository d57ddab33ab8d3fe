/**
 * The task records of js/app.js and the pure parts of the task operations:
 * creating a record (`addTask`), merging updates (`updateTask`), removing by
 * id (`deleteTask`), looking a task up (`tasks.find`) and flipping the
 * completion flag (`toggleTaskComplete`).
 */
module Tasks {
  import opened Options
  import opened Seqs

  datatype Priority = High | Medium | Low

  /** The fixed rank `sortTasks` gives each priority: high before medium before low. */
  function Rank(p: Priority): (r: nat)
    ensures r <= 2
    ensures r == 0 <==> p == High
    ensures r == 2 <==> p == Low
  {
    match p
    case High => 0
    case Medium => 1
    case Low => 2
  }

  /**
   * A task. `id` is the creation timestamp in milliseconds, `dueDate` a day
   * number, `createdAt` the creation time.
   */
  datatype Task = Task(
    id: int,
    title: string,
    category: string,
    priority: Priority,
    dueDate: int,
    completed: bool,
    createdAt: int)

  /** The fields the add-task form hands to `addTask`. */
  datatype TaskFields = TaskFields(title: string, category: string, priority: Priority, dueDate: int)

  /** The fields an update may carry; an absent field keeps the task's value. */
  datatype TaskPatch = TaskPatch(
    title: Option<string>,
    category: Option<string>,
    priority: Option<Priority>,
    dueDate: Option<int>,
    completed: Option<bool>)

  /** The update `toggleTaskComplete` sends: only the completion flag. */
  function CompletedPatch(completed: bool): TaskPatch {
    TaskPatch(None, None, None, None, Some(completed))
  }

  /** The record `addTask` prepends: the form's fields, not completed. */
  function NewTask(id: int, createdAt: int, fields: TaskFields): (t: Task)
    ensures t.id == id && t.createdAt == createdAt && !t.completed
    ensures t.title == fields.title && t.category == fields.category
    ensures t.priority == fields.priority && t.dueDate == fields.dueDate
  {
    Task(id, fields.title, fields.category, fields.priority, fields.dueDate, false, createdAt)
  }

  /** `{ ...task, ...updates }`: the patch's fields win, the others are kept. */
  function Apply(t: Task, patch: TaskPatch): (r: Task)
    ensures r.id == t.id && r.createdAt == t.createdAt
    ensures patch.title.Some? ==> r.title == patch.title.value
    ensures patch.title.None? ==> r.title == t.title
    ensures patch.category.Some? ==> r.category == patch.category.value
    ensures patch.category.None? ==> r.category == t.category
    ensures patch.priority.Some? ==> r.priority == patch.priority.value
    ensures patch.priority.None? ==> r.priority == t.priority
    ensures patch.dueDate.Some? ==> r.dueDate == patch.dueDate.value
    ensures patch.dueDate.None? ==> r.dueDate == t.dueDate
    ensures patch.completed.Some? ==> r.completed == patch.completed.value
    ensures patch.completed.None? ==> r.completed == t.completed
  {
    t.(title := patch.title.GetOr(t.title),
       category := patch.category.GetOr(t.category),
       priority := patch.priority.GetOr(t.priority),
       dueDate := patch.dueDate.GetOr(t.dueDate),
       completed := patch.completed.GetOr(t.completed))
  }

  function IdOf(t: Task): int {
    t.id
  }

  /** The ids of `tasks`, in order. */
  function Ids(tasks: seq<Task>): seq<int> {
    MapSeq(tasks, IdOf)
  }

  ghost predicate HasId(tasks: seq<Task>, id: int) {
    exists i :: 0 <= i < |tasks| && tasks[i].id == id
  }

  ghost predicate UniqueIds(tasks: seq<Task>) {
    forall i, j :: 0 <= i < j < |tasks| ==> tasks[i].id != tasks[j].id
  }

  /**
   * `tasks.map(task => task.id === id ? { ...task, ...updates } : task)`:
   * every task carrying `id` takes the patch, every other task is kept.
   */
  function UpdateAll(tasks: seq<Task>, id: int, patch: TaskPatch): (r: seq<Task>)
    ensures |r| == |tasks|
    ensures forall i :: 0 <= i < |tasks| ==>
              r[i] == if tasks[i].id == id then Apply(tasks[i], patch) else tasks[i]
    ensures !HasId(tasks, id) ==> r == tasks
  {
    if tasks == [] then []
    else [if tasks[0].id == id then Apply(tasks[0], patch) else tasks[0]] + UpdateAll(tasks[1..], id, patch)
  }

  /** An update never changes ids, so it keeps them unique. */
  lemma UpdateKeepsIds(tasks: seq<Task>, id: int, patch: TaskPatch)
    ensures Ids(UpdateAll(tasks, id, patch)) == Ids(tasks)
    ensures UniqueIds(tasks) ==> UniqueIds(UpdateAll(tasks, id, patch))
  {
    var r := UpdateAll(tasks, id, patch);
    forall i | 0 <= i < |tasks| ensures Ids(r)[i] == Ids(tasks)[i] {
      MapAt(r, IdOf, i);
      MapAt(tasks, IdOf, i);
    }
  }

  function IdIsNot(id: int): Task -> bool {
    (t: Task) => t.id != id
  }

  /** `tasks.filter(task => task.id !== id)`. */
  function DeleteById(tasks: seq<Task>, id: int): (r: seq<Task>)
    ensures |r| <= |tasks|
  {
    Filter(tasks, IdIsNot(id))
  }

  /**
   * Deleting removes every task carrying `id` and keeps every other task, in
   * its relative order; deleting an absent id changes nothing.
   */
  lemma DeleteSpec(tasks: seq<Task>, id: int)
    ensures forall t :: t in DeleteById(tasks, id) <==> t in tasks && t.id != id
    ensures forall t :: multiset(DeleteById(tasks, id))[t] == if t.id != id then multiset(tasks)[t] else 0
    ensures IsSubsequence(DeleteById(tasks, id), tasks)
    ensures !HasId(tasks, id) ==> DeleteById(tasks, id) == tasks
  {
    forall t ensures t in DeleteById(tasks, id) <==> t in tasks && t.id != id {
      FilterMembers(tasks, IdIsNot(id), t);
    }
    forall t ensures multiset(DeleteById(tasks, id))[t] == if t.id != id then multiset(tasks)[t] else 0 {
      FilterMultiset(tasks, IdIsNot(id), t);
    }
    FilterSubsequence(tasks, IdIsNot(id));
    if !HasId(tasks, id) {
      FilterKeepsAll(tasks, IdIsNot(id));
    }
  }

  /** Filtering keeps ids unique. */
  lemma {:induction false} FilterKeepsUniqueIds(tasks: seq<Task>, p: Task -> bool)
    requires UniqueIds(tasks)
    ensures UniqueIds(Filter(tasks, p))
  {
    if tasks != [] {
      FilterKeepsUniqueIds(tasks[1..], p);
      if p(tasks[0]) {
        var rest := Filter(tasks[1..], p);
        forall j | 0 <= j < |rest| ensures rest[j].id != tasks[0].id {
          FilterMembers(tasks[1..], p, rest[j]);
        }
      }
    }
  }

  /** `tasks.find(task => task.id === id)`: the first task carrying `id`. */
  function FindById(tasks: seq<Task>, id: int): (r: Option<Task>)
    ensures r.None? <==> !HasId(tasks, id)
    ensures r.Some? ==> r.value in tasks && r.value.id == id
  {
    if tasks == [] then None
    else if tasks[0].id == id then Some(tasks[0])
    else
      assert forall i :: 1 <= i < |tasks| ==> tasks[i] == tasks[1..][i - 1];
      FindById(tasks[1..], id)
  }

  /** `FindById` returns the task at the first index carrying `id`. */
  lemma {:induction false} FindByIdFirst(tasks: seq<Task>, id: int, i: nat)
    requires i < |tasks| && tasks[i].id == id
    requires forall j :: 0 <= j < i ==> tasks[j].id != id
    ensures FindById(tasks, id) == Some(tasks[i])
  {
    if i > 0 {
      FindByIdFirst(tasks[1..], id, i - 1);
    }
  }

  /** With unique ids, looking up a task's own id finds that task. */
  lemma FindOwnId(tasks: seq<Task>, i: nat)
    requires UniqueIds(tasks) && i < |tasks|
    ensures FindById(tasks, tasks[i].id) == Some(tasks[i])
  {
    FindByIdFirst(tasks, tasks[i].id, i);
  }

  /** All tasks carrying `id` agree on their completion flag (true when ids are unique). */
  ghost predicate SameCompletion(tasks: seq<Task>, id: int) {
    forall i, j :: 0 <= i < |tasks| && 0 <= j < |tasks| && tasks[i].id == id && tasks[j].id == id ==>
      tasks[i].completed == tasks[j].completed
  }

  /**
   * `toggleTaskComplete`: when some task carries `id`, every task carrying it
   * gets the negation of the first one's flag; otherwise nothing happens.
   */
  function Toggled(tasks: seq<Task>, id: int): (r: seq<Task>)
    ensures |r| == |tasks|
    ensures !HasId(tasks, id) ==> r == tasks
  {
    match FindById(tasks, id)
    case None => tasks
    case Some(t) => UpdateAll(tasks, id, CompletedPatch(!t.completed))
  }

  /**
   * When the tasks carrying `id` agree on their flag, toggling flips exactly
   * their flags and leaves every other field and every other task alone.
   */
  lemma ToggleFlipsOnlyTarget(tasks: seq<Task>, id: int)
    requires SameCompletion(tasks, id)
    ensures forall i :: 0 <= i < |tasks| ==>
              Toggled(tasks, id)[i] == if tasks[i].id == id
                                      then tasks[i].(completed := !tasks[i].completed)
                                      else tasks[i]
  {
    match FindById(tasks, id)
    case None =>
    case Some(t) =>
      var k :| 0 <= k < |tasks| && tasks[k] == t;
  }

  /** Toggling twice restores the collection. */
  lemma ToggleTwice(tasks: seq<Task>, id: int)
    requires SameCompletion(tasks, id)
    ensures Toggled(Toggled(tasks, id), id) == tasks
  {
    var once := Toggled(tasks, id);
    ToggleFlipsOnlyTarget(tasks, id);
    assert SameCompletion(once, id);
    ToggleFlipsOnlyTarget(once, id);
  }

  /** Unique ids make every id's tasks agree, so toggling twice restores the collection. */
  lemma ToggleTwiceUnique(tasks: seq<Task>, id: int)
    requires UniqueIds(tasks)
    ensures Toggled(Toggled(tasks, id), id) == tasks
  {
    ToggleTwice(tasks, id);
  }

  /** Prepending a task whose id is new keeps the ids unique. */
  lemma PrependFreshKeepsUnique(tasks: seq<Task>, t: Task)
    requires UniqueIds(tasks) && !HasId(tasks, t.id)
    ensures UniqueIds([t] + tasks)
  {
  }
}
