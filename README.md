# To-do list application state, in Dafny

This project models the state logic of a browser to-do list application (`js/app.js`).

The application keeps two lists:
- a list of **tasks**, each with an id, title, category, priority, due date, completion flag and creation time;
- a list of **categories**, each with a slug id, name, icon and colour.

It also keeps three selections that decide what the task list shows: the current category, sort key and status filter. Both lists are saved to local storage after each change.

The model is split by concern:

- `Seqs` (seqs.dfy) holds the array operations the code relies on:
  - `filter` and `map`;
  - the stable `sort`, as an insertion sort driven by a "may come first" relation;
  - the lemmas about them: membership, multiset counts, subsequence, sortedness, permutation and stability.
- `Tasks` (tasks.dfy) holds the task record and the pure parts of `addTask`, `updateTask`, `deleteTask`, `tasks.find` and `toggleTaskComplete`.
- `Categories` (categories.dfy) holds:
  - the five seed categories;
  - the slug `name.toLowerCase().replace(/\s+/g, '-')`, with JavaScript's exact `\s` character set;
  - the record `addCategory` appends.
- `View` (view.dfy) holds `filterTasks`, the `sortTasks` comparator for each key, `renderTasks`' sorted filtered list, and `getTaskCount`.
- `Reorder` (reorder.dfy) holds the end of a drag:
  - `Rebuild` is the step as the code writes it;
  - `ReorderView` is a corrected step (see Findings).
- `App` (app.dfy) is a class `TodoApp` whose fields are the two lists, the three selections and what storage holds. Each operation is a method that updates those fields in place and saves where the code saves. The one exception is `ReorderTasks`, the corrected drag end: it refuses an id list that is not an ordering of the view's ids, and then changes and saves nothing, where the code always saves. It keeps the invariant `Valid()`: reloading the page would restore the current lists.

Each method states its whole new state in terms of the old one through the pure functions above. The properties of those functions are proved as lemmas.

## Model

| member | source | states |
|---|---|---|
| App.LoadTasks | js/app.js:37 | with nothing stored the task list starts empty; otherwise it is the stored list |
| App.LoadCategories | js/app.js:38-44 | with nothing stored the category list is the five seed categories; otherwise it is the stored list |
| App.TodoApp.constructor | js/app.js:36-47 | the lists come from storage, with no tasks and the five default categories when nothing is stored; the selections start at all categories, sorted by date, every status |
| App.TodoApp.SaveTasks | js/app.js:336-338 | storage's task record becomes the current list; nothing else changes |
| App.TodoApp.SaveCategories | js/app.js:340-342 | storage's category record becomes the current list; nothing else changes |
| App.TodoApp.AddTask | js/app.js:72-79 | the new task, not completed, is at index 0 and the old tasks follow in order; the list grows by one and is saved; a fresh id keeps ids unique; the stored categories are untouched |
| App.TodoApp.UpdateTask | js/app.js:84-88 | the list becomes `UpdateAll` of the old list; ids and their order are kept, as is id uniqueness; the list is saved even when the id is absent; the stored categories are untouched |
| App.TodoApp.DeleteTask | js/app.js:93-95 | the list becomes `DeleteById` of the old list; no task with the id remains; id uniqueness is kept; the list is saved; the stored categories are untouched |
| App.TodoApp.ToggleTaskComplete | js/app.js:100-105 | the list becomes `Toggled` of the old list; it is saved only when some task carries the id, through `updateTask`; the stored categories are untouched |
| App.TodoApp.AddCategory | js/app.js:108-113 | the new category, whose id is the slug of its name, is appended; earlier categories are unchanged; the list is saved; the stored tasks are untouched |
| App.TodoApp.SelectCategory | js/app.js:234-238 | clicking a category selects its id and changes nothing else |
| App.TodoApp.ReorderTasks | js/app.js:349-352 | the corrected drag end: it succeeds exactly when `ReorderView` accepts the ids, and the list is then replaced and saved; otherwise nothing changes; with unique ids the result is a permutation of the old list; the stored categories are untouched |
| Tasks.NewTask | js/app.js:73-78 | the new task carries the given id and creation time, is not completed, and takes its title, category, priority and due date from the form |
| Tasks.Apply | js/app.js:86 | `{ ...task, ...updates }`: each field in the update takes the update's value, each field not in it keeps the task's value, and id and creation time are kept |
| Tasks.UpdateAll | js/app.js:85-87 | the length is kept; each task carrying the id takes the update and every other task is unchanged; an absent id changes nothing |
| Tasks.UpdateKeepsIds | js/app.js:85-87 | an update keeps the id sequence, so it keeps ids unique |
| Tasks.DeleteById | js/app.js:94 | deleting never lengthens the list |
| Tasks.DeleteSpec | js/app.js:94 | after deletion no task carries the id; every other task survives exactly as often as it was stored, in its relative order (a subsequence); an absent id changes nothing |
| Tasks.FilterKeepsUniqueIds | js/app.js:94 | removing tasks keeps ids unique |
| Tasks.FindById | js/app.js:101 | `find` returns nothing exactly when no task carries the id, and otherwise a stored task carrying it |
| Tasks.FindByIdFirst | js/app.js:101 | `find` returns the first task carrying the id |
| Tasks.FindOwnId | js/app.js:101 | with unique ids, looking up a task's own id finds that task |
| Tasks.Toggled | js/app.js:100-105 | the length is kept, and an absent id changes nothing |
| Tasks.ToggleFlipsOnlyTarget | js/app.js:100-105 | when the tasks carrying the id agree on their flag, only their `completed` flags flip; every other field and every other task is unchanged |
| Tasks.ToggleTwice | js/app.js:100-105 | when the tasks carrying the id agree on their flag, toggling the same id twice restores the list |
| Tasks.ToggleTwiceUnique | js/app.js:100-105 | with unique ids, toggling twice restores the list |
| Tasks.PrependFreshKeepsUnique | js/app.js:73-78 | putting a task with a new id in front keeps ids unique |
| Categories.DefaultCategoriesWellFormed | js/app.js:38-44 | the seed list has five categories, starts with the reserved 'all' category, and its ids are distinct |
| Categories.Slug | js/app.js:110 | a slug is no longer than the name, and is empty exactly when the name is |
| Categories.NewCategory | js/app.js:109-112 | the appended category's id is the slug of its name, and its name, icon and colour are the given ones |
| Categories.SlugShape | js/app.js:110 | a slug has no whitespace and no letter A-Z, and is no longer than the name |
| Categories.CollapseNoWhitespace | js/app.js:110 | replacing every whitespace run leaves no whitespace |
| Categories.SkipIsSuffix | js/app.js:110 | skipping a whitespace run leaves a suffix of the text |
| Categories.LowerOfLower | js/app.js:110 | a string with no upper-case letter is its own lower-case form, so lower-casing twice is lower-casing once |
| Categories.SlugWithoutWhitespace | js/app.js:110 | a name without whitespace slugs to its lower-case form |
| Categories.SlugIdempotent | js/app.js:110 | slugging a slug changes nothing |
| Categories.SlugJoin | js/app.js:110 | a whitespace run between two words becomes exactly one hyphen, whatever its length |
| Categories.SlugTwoWordsJoin | js/app.js:110 | two words separated by a space slug to their lower-case forms joined by a hyphen |
| Categories.SlugOneWord | js/app.js:110 | "Travel" slugs to "travel" |
| Categories.SlugTwoWords | js/app.js:110 | "Travel Plans" slugs to "travel-plans" |
| Categories.SlugReservedCollision | js/app.js:110 | a category named "All" gets the reserved id 'all'; the code does not prevent it |
| View.Matches | js/app.js:311-316 | a task passes only when the category is 'all' or its own; with category 'all' and status 'all' every task passes; the 'completed' filter passes only completed tasks and 'active' only uncompleted ones |
| View.FilterTasks | js/app.js:310-317 | the filtered list is no longer than the task list |
| View.FilterTasksSpec | js/app.js:310-317 | the filtered list holds exactly the matching tasks (category 'all' or equal; completed, active or any status), each as often as stored, as a subsequence of the task list |
| View.FilterAllShowsAll | js/app.js:310-317 | the start-up selection shows every task |
| View.SortTasks | js/app.js:319-333 | the sorted list is a permutation of its input, which is a copy and is not changed |
| Tasks.Rank | js/app.js:325 | ranks are 0 to 2: high alone has rank 0 and low alone rank 2 |
| View.Comparator | js/app.js:320-331 | by date, a task may come first exactly when its due date is not later; under an unknown key every task may come before every other |
| View.PriorityComparator | js/app.js:324-326 | by priority, a high task may come before any task, any task may come before a low one, and a low task never comes before a higher one |
| View.ComparatorIsPreorder | js/app.js:321-331 | every sort key's comparison is a total preorder; the title key needs the collation to be one |
| View.SortByDateOrders | js/app.js:322-323 | sorting by date gives non-decreasing due dates |
| View.SortByPriorityOrders | js/app.js:324-326 | sorting by priority puts high before medium before low |
| View.SortByTitleOrders | js/app.js:327-328 | sorting by title orders titles by the collation |
| View.SortUnsortedKeepsOrder | js/app.js:329-330 | any other key compares everything as 0 and keeps the stored order |
| View.SortTasksStable | js/app.js:320 | the sort is stable: tasks that compare equal keep their relative order |
| View.Shown | js/app.js:119-121 | the rendered list is a permutation of the filtered list |
| View.ShownSpec | js/app.js:119-121 | a task is rendered exactly when it is stored and matches the selection |
| View.TaskCount | js/app.js:296-300 | the count is at most the number of tasks, and 'all' counts every task |
| View.TaskCountIsViewLength | js/app.js:296-300 | a category's count is the length of its list with no status filter |
| View.TaskCountSplits | js/app.js:296-300 | a category's count is its active tasks plus its completed tasks |
| Reorder.Rebuild | js/app.js:350-351 | the rebuilt list has one entry per rendered id |
| Reorder.RebuildAt | js/app.js:351 | each entry is the `find` of its id in the stored list |
| Reorder.RebuiltIsShown | js/app.js:350-351 | with unique ids, when the rendered ids are the current view's ids, every rebuilt entry is a task of the view |
| Reorder.DragInFilteredViewDropsHiddenTasks | js/app.js:349-352 | with unique ids, when the view is filtered, no task hidden by it survives the drag, and the saved list is shorter than before |
| Reorder.DragDropsPersonalTask | js/app.js:349-352 | with a work task and a personal task, a drag in the work category leaves only the work task |
| Reorder.ReorderView | js/app.js:349-352 | the corrected step succeeds only when the ids are an ordering of the view's ids, and then keeps the list's length |
| Reorder.LookupAll | js/app.js:351 | the lookup fails exactly when some id is absent; otherwise it gives, for each id, the task `find` returns |
| Reorder.LookupView | js/app.js:350-351 | with unique ids, looking up a reordering of the view's ids finds every id and gives the view's tasks, each once |
| Reorder.LookupPermutation | js/app.js:351 | with unique ids, looking up a reordering of the ids gives a reordering of the tasks |
| Reorder.FillFilter | js/app.js:349-352 | after refilling the view's slots, the view shows the refill in order |
| Reorder.FillMultiset | js/app.js:349-352 | refilling exchanges the view's tasks for the refill, counted task by task |
| Reorder.FillKeepsHidden | js/app.js:349-352 | refilling leaves every hidden task in its slot |
| Reorder.ReorderViewSpec | js/app.js:349-352 | with unique ids, the corrected step accepts exactly the orderings of the view's ids; it then gives a permutation of the stored tasks whose filtered list, in stored order, is the dragged order, and whose hidden tasks have not moved |
| Reorder.ReorderAgreesUnfiltered | js/app.js:349-352 | in the unfiltered view the corrected step and the code give the same list |

## Left out

- Rendering, modals, toasts and the settings controls are left out; they touch only the page. Of the event handlers, their form reading and DOM lookups are left out; what they pass on is modelled through the operations they call, and `handleCategoryClick`'s assignment of `currentCategory` (js/app.js:237) is `App.TodoApp.SelectCategory`.
- The icon default is not modelled: `handleAddCategory` gives a new category the first character of its name, upper-cased, as icon (js/app.js:226). In the model the icon comes in as a parameter of `App.TodoApp.AddCategory` and `Categories.NewCategory`.
- The theme is left out: `toggleTheme` and `loadTheme` write and read a third stored record, 'darkMode' (js/app.js:59-69), which the model does not include. `renderTasks` is modelled only as the list it renders (`View.Shown`).
- Storage is modelled as two optional values, with no serialisation. A stored record that is not valid JSON makes `JSON.parse` throw at start-up in the code; the model does not include this, because it has no text form of the lists.
- Clock values come in as parameters: `Date.now()` for the id and the creation time. The ISO time string is modelled as an integer. Due dates are day numbers. `formatDate` is not modelled.
- A missing or unparsable due date gives `NaN` in the date comparator. That is not modelled: every due date is a number.
- Priorities are the three values `high`, `medium` and `low`. A stored priority outside them would compare as `NaN` and is not modelled.
- `localeCompare` is the parameter `titleLe`. The title-order lemmas assume it is a total preorder.
- `View.SortTasks`: the stable sort is assumed, as ECMAScript 2019 requires. Before that standard, engines could reorder equal tasks.
- Tasks.Apply: an update is a patch of the five editable fields. The code's spread would also let an update replace `id` or `createdAt`, but no caller passes those.
- Categories.Slug: lower-casing covers ASCII letters only. `toLowerCase` also maps other Unicode letters, whose case tables are not modelled; some of those mappings lengthen the string (`'İ'` lower-cases to two code units), so the code's slug can be longer than the name, which the model's length bound does not reflect.
- App.TodoApp.AddCategory: category ids are not checked for uniqueness, exactly as in the code. `SlugReservedCollision` shows a user category can collide with the reserved 'all'.
- App.TodoApp.ReorderTasks: this is the corrected step. A list of ids that is not an ordering of the view's ids is refused and nothing changes. The code instead stores `undefined` for an unknown id; `Reorder.Rebuild` models that with `None`.
- Saving can fail: `localStorage.setItem` throws when storage is full, after the in-memory list has already changed (js/app.js:73-79, js/app.js:336-338). The model treats every save as successful, and `Valid()` relies on that.
- The Sortable library and the DOM list it rearranges are left out. A drag reaches the model only as the sequence of rendered ids.
- The edit button calls `editTask`, which the file never defines. It is not modelled.
- The filter and sort menus only show a toast, so the code never changes `currentSort` or `currentFilter` from their initial values. The model still allows every key and filter.
- `getCategoryName` and `updateTaskCounts` are display helpers and are not modelled. The count they show is `View.TaskCount`.
- js/background.js is not part of this model.

## Findings

| source | as written | input that shows it | evidently intended | confidence | as-written member | corrected member |
|---|---|---|---|---|---|---|
| js/app.js:349-352 | after a drag, `tasks` is rebuilt from the ids of the rendered elements only, which are the tasks of the current category and status filter, and then saved | tasks `[w, p]` with categories 'work' and 'personal', viewed in category 'work'; a drag that ends with `w` in place saves `[w]`, and `p` is lost | the dragged tasks take the view's slots in the new order, and every hidden task is kept in place | high (proved; not executed) | Reorder.DragInFilteredViewDropsHiddenTasks | Reorder.ReorderViewSpec |
