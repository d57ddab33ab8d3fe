/**
 * The application state of js/app.js: the task list, the category list, the
 * three selections that decide what the task list shows, and what the browser's
 * local storage holds under the keys 'tasks' and 'categories'.
 */
module App {
  import opened Options
  import opened Tasks
  import opened Categories
  import opened View
  import opened Reorder

  /** The task list loaded at start-up: the stored list, or none. */
  function LoadTasks(stored: Option<seq<Task>>): (r: seq<Task>)
    ensures stored.None? ==> r == []
    ensures stored.Some? ==> r == stored.value
  {
    stored.GetOr([])
  }

  /** The category list loaded at start-up: the stored list, or the five defaults. */
  function LoadCategories(stored: Option<seq<Category>>): (r: seq<Category>)
    ensures stored.None? ==> r == DefaultCategories
    ensures stored.Some? ==> r == stored.value
  {
    stored.GetOr(DefaultCategories)
  }

  class TodoApp {
    var tasks: seq<Task>
    var categories: seq<Category>
    var currentCategory: string
    var currentSort: SortKey
    var currentFilter: StatusFilter
    /** What local storage holds under 'tasks'; `None` when nothing was saved. */
    var savedTasks: Option<seq<Task>>
    /** What local storage holds under 'categories'; `None` when nothing was saved. */
    var savedCategories: Option<seq<Category>>

    /** Reloading the page would restore the current lists. */
    ghost predicate Valid()
      reads this
    {
      LoadTasks(savedTasks) == tasks && LoadCategories(savedCategories) == categories
    }

    /**
     * Start-up: the lists come from storage, with the default categories when
     * none are stored; every task is shown, sorted by date.
     */
    constructor (storedTasks: Option<seq<Task>>, storedCategories: Option<seq<Category>>)
      ensures tasks == LoadTasks(storedTasks) && categories == LoadCategories(storedCategories)
      ensures storedCategories.None? ==> categories == DefaultCategories
      ensures currentCategory == AllId && currentSort == ByDate && currentFilter == AllStatuses
      ensures savedTasks == storedTasks && savedCategories == storedCategories
      ensures Valid()
    {
      tasks := LoadTasks(storedTasks);
      categories := LoadCategories(storedCategories);
      currentCategory := AllId;
      currentSort := ByDate;
      currentFilter := AllStatuses;
      savedTasks := storedTasks;
      savedCategories := storedCategories;
    }

    /** `saveTasks`. */
    method SaveTasks()
      modifies this
      ensures savedTasks == Some(tasks)
      ensures tasks == old(tasks) && categories == old(categories)
      ensures savedCategories == old(savedCategories)
      ensures currentCategory == old(currentCategory) && currentSort == old(currentSort)
      ensures currentFilter == old(currentFilter)
      ensures old(LoadCategories(savedCategories) == categories) ==> Valid()
    {
      savedTasks := Some(tasks);
    }

    /** `saveCategories`. */
    method SaveCategories()
      modifies this
      ensures savedCategories == Some(categories)
      ensures tasks == old(tasks) && categories == old(categories)
      ensures savedTasks == old(savedTasks)
      ensures currentCategory == old(currentCategory) && currentSort == old(currentSort)
      ensures currentFilter == old(currentFilter)
      ensures old(LoadTasks(savedTasks) == tasks) ==> Valid()
    {
      savedCategories := Some(categories);
    }

    /**
     * `addTask`: the new task, not completed, goes in front of the old ones,
     * and the list is saved. A new id keeps ids unique.
     */
    method AddTask(id: int, createdAt: int, fields: TaskFields)
      requires Valid()
      modifies this
      ensures tasks == [NewTask(id, createdAt, fields)] + old(tasks)
      ensures tasks[0].id == id && !tasks[0].completed && |tasks| == |old(tasks)| + 1
      ensures UniqueIds(old(tasks)) && !HasId(old(tasks), id) ==> UniqueIds(tasks)
      ensures categories == old(categories) && savedTasks == Some(tasks)
      ensures currentCategory == old(currentCategory) && currentSort == old(currentSort)
      ensures currentFilter == old(currentFilter)
      ensures Valid()
      ensures savedCategories == old(savedCategories)
    {
      if UniqueIds(tasks) && !HasId(tasks, id) {
        PrependFreshKeepsUnique(tasks, NewTask(id, createdAt, fields));
      }
      tasks := [NewTask(id, createdAt, fields)] + tasks;
      SaveTasks();
    }

    /**
     * `updateTask`: every task carrying `id` takes the patch; the list is
     * saved even when no task carries `id`.
     */
    method UpdateTask(id: int, patch: TaskPatch)
      requires Valid()
      modifies this
      ensures tasks == UpdateAll(old(tasks), id, patch)
      ensures Ids(tasks) == Ids(old(tasks))
      ensures UniqueIds(old(tasks)) ==> UniqueIds(tasks)
      ensures categories == old(categories) && savedTasks == Some(tasks)
      ensures currentCategory == old(currentCategory) && currentSort == old(currentSort)
      ensures currentFilter == old(currentFilter)
      ensures Valid()
      ensures savedCategories == old(savedCategories)
    {
      UpdateKeepsIds(tasks, id, patch);
      tasks := UpdateAll(tasks, id, patch);
      SaveTasks();
    }

    /** `deleteTask`: every task carrying `id` is removed and the list saved. */
    method DeleteTask(id: int)
      requires Valid()
      modifies this
      ensures tasks == DeleteById(old(tasks), id)
      ensures !HasId(tasks, id)
      ensures UniqueIds(old(tasks)) ==> UniqueIds(tasks)
      ensures categories == old(categories) && savedTasks == Some(tasks)
      ensures currentCategory == old(currentCategory) && currentSort == old(currentSort)
      ensures currentFilter == old(currentFilter)
      ensures Valid()
      ensures savedCategories == old(savedCategories)
    {
      DeleteSpec(tasks, id);
      if UniqueIds(tasks) {
        FilterKeepsUniqueIds(tasks, IdIsNot(id));
      }
      tasks := DeleteById(tasks, id);
      SaveTasks();
    }

    /**
     * `toggleTaskComplete`: when a task carries `id`, an update flips its
     * flag (and saves); otherwise nothing happens, not even a save.
     */
    method ToggleTaskComplete(id: int)
      requires Valid()
      modifies this
      ensures tasks == Toggled(old(tasks), id)
      ensures savedTasks == if HasId(old(tasks), id) then Some(tasks) else old(savedTasks)
      ensures categories == old(categories)
      ensures currentCategory == old(currentCategory) && currentSort == old(currentSort)
      ensures currentFilter == old(currentFilter)
      ensures Valid()
      ensures savedCategories == old(savedCategories)
    {
      match FindById(tasks, id)
      case Some(t) =>
        UpdateTask(id, CompletedPatch(!t.completed));
      case None =>
    }

    /**
     * `addCategory`: the new category, with its slug as id, goes after the
     * old ones, and the list is saved.
     */
    method AddCategory(name: string, icon: string, color: string)
      requires Valid()
      modifies this
      ensures categories == old(categories) + [NewCategory(name, icon, color)]
      ensures categories[|categories| - 1].id == Slug(name)
      ensures tasks == old(tasks) && savedCategories == Some(categories)
      ensures currentCategory == old(currentCategory) && currentSort == old(currentSort)
      ensures currentFilter == old(currentFilter)
      ensures Valid()
      ensures savedTasks == old(savedTasks)
    {
      categories := categories + [NewCategory(name, icon, color)];
      SaveCategories();
    }

    /** Clicking a category selects it; nothing is saved. */
    method SelectCategory(id: string)
      modifies this
      ensures currentCategory == id
      ensures tasks == old(tasks) && categories == old(categories)
      ensures savedTasks == old(savedTasks) && savedCategories == old(savedCategories)
      ensures currentSort == old(currentSort) && currentFilter == old(currentFilter)
      ensures old(Valid()) ==> Valid()
    {
      currentCategory := id;
    }

    /**
     * The end of a drag, corrected: when the rendered ids are an ordering of
     * the current view's ids, the view's tasks take that order in their slots
     * and the list is saved; otherwise nothing changes.
     */
    method ReorderTasks(taskIds: seq<int>) returns (ok: bool)
      requires Valid()
      modifies this
      ensures ok == ReorderView(old(tasks), currentCategory, currentFilter, taskIds).Some?
      ensures ok ==> tasks == ReorderView(old(tasks), currentCategory, currentFilter, taskIds).value
      ensures ok ==> savedTasks == Some(tasks)
      ensures !ok ==> tasks == old(tasks) && savedTasks == old(savedTasks)
      ensures UniqueIds(old(tasks)) ==> multiset(tasks) == multiset(old(tasks))
      ensures categories == old(categories)
      ensures currentCategory == old(currentCategory) && currentSort == old(currentSort)
      ensures currentFilter == old(currentFilter)
      ensures Valid()
      ensures savedCategories == old(savedCategories)
    {
      if UniqueIds(tasks) {
        ReorderViewSpec(tasks, currentCategory, currentFilter, taskIds);
      }
      match ReorderView(tasks, currentCategory, currentFilter, taskIds)
      case Some(r) =>
        tasks := r;
        SaveTasks();
        ok := true;
      case None =>
        ok := false;
    }
  }
}
