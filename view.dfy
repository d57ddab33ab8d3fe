/**
 * What the task list shows: `filterTasks` keeps the tasks of the selected
 * category and completion status, `sortTasks` orders them by the selected key,
 * `renderTasks` shows the sorted filtered list, and `getTaskCount` gives the
 * number shown beside each category.
 */
module View {
  import opened Seqs
  import opened Tasks
  import opened Categories

  /** The completion filter `currentFilter`: 'all', 'active' or 'completed'. */
  datatype StatusFilter = AllStatuses | Active | Completed

  /**
   * The sort key `currentSort`: 'date', 'priority', 'title', or any other
   * value, for which the comparator answers 0.
   */
  datatype SortKey = ByDate | ByPriority | ByTitle | Unsorted

  /** The test `filterTasks` applies to each task. */
  predicate Matches(t: Task, category: string, filter: StatusFilter): (b: bool)
    ensures b ==> category == AllId || t.category == category
    ensures category == AllId && filter == AllStatuses ==> b
    ensures filter == Completed && b ==> t.completed
    ensures filter == Active && b ==> !t.completed
  {
    && (category == AllId || t.category == category)
    && match filter
       case Completed => t.completed
       case Active => !t.completed
       case AllStatuses => true
  }

  function InView(category: string, filter: StatusFilter): Task -> bool {
    (t: Task) => Matches(t, category, filter)
  }

  /** `filterTasks`: the tasks of the selected category and status, in stored order. */
  function FilterTasks(tasks: seq<Task>, category: string, filter: StatusFilter): (r: seq<Task>)
    ensures |r| <= |tasks|
  {
    Filter(tasks, InView(category, filter))
  }

  /**
   * The filtered list holds exactly the matching tasks, each as often as it is
   * stored, in their stored relative order.
   */
  lemma FilterTasksSpec(tasks: seq<Task>, category: string, filter: StatusFilter)
    ensures forall t :: t in FilterTasks(tasks, category, filter) <==> t in tasks && Matches(t, category, filter)
    ensures forall t :: multiset(FilterTasks(tasks, category, filter))[t] ==
                        if Matches(t, category, filter) then multiset(tasks)[t] else 0
    ensures IsSubsequence(FilterTasks(tasks, category, filter), tasks)
  {
    var p := InView(category, filter);
    forall t ensures t in Filter(tasks, p) <==> t in tasks && Matches(t, category, filter) {
      FilterMembers(tasks, p, t);
    }
    forall t ensures multiset(Filter(tasks, p))[t] == if Matches(t, category, filter) then multiset(tasks)[t] else 0 {
      FilterMultiset(tasks, p, t);
    }
    FilterSubsequence(tasks, p);
  }

  /** The default view (every category, every status) shows every task. */
  lemma FilterAllShowsAll(tasks: seq<Task>)
    ensures FilterTasks(tasks, AllId, AllStatuses) == tasks
  {
    FilterKeepsAll(tasks, InView(AllId, AllStatuses));
  }

  /**
   * The comparator of `sortTasks` as "may come first": `le(a, b)` stands for
   * `compare(a, b) <= 0`. Due dates compare as day numbers, priorities by
   * their rank, titles by `titleLe`, the locale's collation order.
   */
  function Comparator(key: SortKey, titleLe: (string, string) -> bool): (le: (Task, Task) -> bool)
    ensures key == ByDate ==> forall a: Task, b: Task :: le(a, b) <==> a.dueDate <= b.dueDate
    ensures key == Unsorted ==> forall a: Task, b: Task :: le(a, b)
  {
    match key
    case ByDate => (a: Task, b: Task) => a.dueDate <= b.dueDate
    case ByPriority => (a: Task, b: Task) => Rank(a.priority) <= Rank(b.priority)
    case ByTitle => (a: Task, b: Task) => titleLe(a.title, b.title)
    case Unsorted => (a: Task, b: Task) => true
  }

  /**
   * Under the priority key a high-priority task may come before any task, any
   * task may come before a low-priority one, and a low-priority task never
   * comes before a task of higher priority.
   */
  lemma PriorityComparator(titleLe: (string, string) -> bool, a: Task, b: Task)
    ensures a.priority == High ==> Comparator(ByPriority, titleLe)(a, b)
    ensures b.priority == Low ==> Comparator(ByPriority, titleLe)(a, b)
    ensures a.priority == Low && b.priority != Low ==> !Comparator(ByPriority, titleLe)(a, b)
  {
    var le := Comparator(ByPriority, titleLe);
    assert le(a, b) <==> Rank(a.priority) <= Rank(b.priority);
  }

  /** `sortTasks`: a sorted copy; the stored list is not touched. */
  function SortTasks(tasks: seq<Task>, key: SortKey, titleLe: (string, string) -> bool): (r: seq<Task>)
    ensures multiset(r) == multiset(tasks)
  {
    SortBy(tasks, Comparator(key, titleLe))
  }

  /** Every key orders tasks by a total preorder; the title key needs the collation order to be one. */
  lemma ComparatorIsPreorder(key: SortKey, titleLe: (string, string) -> bool)
    requires key == ByTitle ==> TotalPreorder(titleLe)
    ensures TotalPreorder(Comparator(key, titleLe))
  {
    var le := Comparator(key, titleLe);
    if key == ByTitle {
      forall a: Task, b: Task ensures le(a, b) || le(b, a) {
        assert titleLe(a.title, b.title) || titleLe(b.title, a.title);
      }
      forall a: Task, b: Task, c: Task | le(a, b) && le(b, c) ensures le(a, c) {
        assert titleLe(a.title, b.title) && titleLe(b.title, c.title);
      }
    }
  }

  /** Sorting by date puts due dates in non-decreasing order. */
  lemma SortByDateOrders(tasks: seq<Task>, titleLe: (string, string) -> bool)
    ensures forall i, j :: 0 <= i < j < |tasks| ==>
              SortTasks(tasks, ByDate, titleLe)[i].dueDate <= SortTasks(tasks, ByDate, titleLe)[j].dueDate
  {
    var le := Comparator(ByDate, titleLe);
    assert TotalPreorder(le);
    SortBySorted(tasks, le);
  }

  /** Sorting by priority puts high before medium before low. */
  lemma SortByPriorityOrders(tasks: seq<Task>, titleLe: (string, string) -> bool)
    ensures forall i, j :: 0 <= i < j < |tasks| ==>
              Rank(SortTasks(tasks, ByPriority, titleLe)[i].priority) <= Rank(SortTasks(tasks, ByPriority, titleLe)[j].priority)
  {
    var le := Comparator(ByPriority, titleLe);
    assert TotalPreorder(le);
    SortBySorted(tasks, le);
  }

  /** Sorting by title orders titles by the collation order. */
  lemma SortByTitleOrders(tasks: seq<Task>, titleLe: (string, string) -> bool)
    requires TotalPreorder(titleLe)
    ensures forall i, j :: 0 <= i < j < |tasks| ==>
              titleLe(SortTasks(tasks, ByTitle, titleLe)[i].title, SortTasks(tasks, ByTitle, titleLe)[j].title)
  {
    ComparatorIsPreorder(ByTitle, titleLe);
    SortBySorted(tasks, Comparator(ByTitle, titleLe));
  }

  /** Under an unknown key every comparison is 0, so the stored order is kept. */
  lemma SortUnsortedKeepsOrder(tasks: seq<Task>, titleLe: (string, string) -> bool)
    ensures SortTasks(tasks, Unsorted, titleLe) == tasks
  {
    SortByAllEqual(tasks, Comparator(Unsorted, titleLe));
  }

  /**
   * The sort is stable: the tasks that compare equal to any task `k` keep
   * their stored relative order.
   */
  lemma SortTasksStable(tasks: seq<Task>, key: SortKey, titleLe: (string, string) -> bool, k: Task)
    requires key == ByTitle ==> TotalPreorder(titleLe)
    ensures Filter(SortTasks(tasks, key, titleLe), EquivTo(Comparator(key, titleLe), k)) ==
            Filter(tasks, EquivTo(Comparator(key, titleLe), k))
  {
    ComparatorIsPreorder(key, titleLe);
    SortByStable(tasks, Comparator(key, titleLe), k);
  }

  /** `renderTasks`: the list shown is the filtered list, sorted. */
  function Shown(tasks: seq<Task>, category: string, filter: StatusFilter, key: SortKey,
                 titleLe: (string, string) -> bool): (r: seq<Task>)
    ensures multiset(r) == multiset(FilterTasks(tasks, category, filter))
  {
    SortTasks(FilterTasks(tasks, category, filter), key, titleLe)
  }

  /** The list shown holds exactly the matching tasks. */
  lemma ShownSpec(tasks: seq<Task>, category: string, filter: StatusFilter, key: SortKey,
                  titleLe: (string, string) -> bool, t: Task)
    ensures t in Shown(tasks, category, filter, key, titleLe) <==> t in tasks && Matches(t, category, filter)
  {
    var f := FilterTasks(tasks, category, filter);
    FilterTasksSpec(tasks, category, filter);
    assert t in Shown(tasks, category, filter, key, titleLe) <==> t in multiset(f);
  }

  function InCategory(categoryId: string): Task -> bool {
    (t: Task) => categoryId == AllId || t.category == categoryId
  }

  /**
   * `getTaskCount`: the number of tasks in a category; 'all' counts every
   * task.
   */
  function TaskCount(tasks: seq<Task>, categoryId: string): (n: nat)
    ensures n <= |tasks|
    ensures categoryId == AllId ==> n == |tasks|
  {
    if categoryId == AllId then FilterKeepsAll(tasks, InCategory(categoryId)); |Filter(tasks, InCategory(categoryId))|
    else |Filter(tasks, InCategory(categoryId))|
  }

  /** The count beside a category is the length of that category's unfiltered list. */
  lemma TaskCountIsViewLength(tasks: seq<Task>, categoryId: string)
    ensures TaskCount(tasks, categoryId) == |FilterTasks(tasks, categoryId, AllStatuses)|
  {
    FilterSame(tasks, InCategory(categoryId), InView(categoryId, AllStatuses));
  }

  /** A category's count splits into its active and its completed tasks. */
  lemma TaskCountSplits(tasks: seq<Task>, categoryId: string)
    ensures TaskCount(tasks, categoryId) ==
            |FilterTasks(tasks, categoryId, Active)| + |FilterTasks(tasks, categoryId, Completed)|
  {
    FilterPartition(tasks, InCategory(categoryId), InView(categoryId, Active), InView(categoryId, Completed));
  }
}
