/**
 * Drag-and-drop reordering: when a drag ends, the ids of the rendered task
 * elements, in their new order, replace the stored task list.
 *
 * `Rebuild` is that step as written: every id is looked up in the stored list
 * and the lookups become the new list. The rendered elements are only the
 * tasks of the current view, so in a filtered view every hidden task is
 * dropped (`DragInFilteredViewDropsHiddenTasks`). `ReorderView` is the
 * corrected step: the dragged tasks take the view's slots in their new order
 * and every hidden task stays where it was; in the unfiltered view it agrees
 * with `Rebuild` (`ReorderAgreesUnfiltered`).
 */
module Reorder {
  import opened Options
  import opened Seqs
  import opened Tasks
  import opened View
  import opened Categories

  function Finder(tasks: seq<Task>): int -> Option<Task> {
    (id: int) => FindById(tasks, id)
  }

  /**
   * The drag-end step as written: each rendered id looked up in the whole
   * stored list; `None` stands for the `undefined` an unknown id yields.
   */
  function Rebuild(tasks: seq<Task>, taskIds: seq<int>): (r: seq<Option<Task>>)
    ensures |r| == |taskIds|
  {
    MapSeq(taskIds, Finder(tasks))
  }

  lemma RebuildAt(tasks: seq<Task>, taskIds: seq<int>, i: nat)
    requires i < |taskIds|
    ensures Rebuild(tasks, taskIds)[i] == FindById(tasks, taskIds[i])
  {
    MapAt(taskIds, Finder(tasks), i);
  }

  /**
   * Dragging in a filtered view loses data: when the rendered ids are those of
   * the view and ids are unique, no entry of the new list is a hidden task, so
   * the rebuilt list is shorter than the stored one.
   */
  lemma DragInFilteredViewDropsHiddenTasks(tasks: seq<Task>, category: string, filter: StatusFilter,
                                           taskIds: seq<int>, h: Task)
    requires UniqueIds(tasks)
    requires multiset(taskIds) == multiset(Ids(FilterTasks(tasks, category, filter)))
    requires h in tasks && !Matches(h, category, filter)
    ensures forall i :: 0 <= i < |taskIds| ==> Rebuild(tasks, taskIds)[i] != Some(h)
    ensures |Rebuild(tasks, taskIds)| < |tasks|
  {
    var view := FilterTasks(tasks, category, filter);
    var p := InView(category, filter);
    forall i | 0 <= i < |taskIds| ensures Rebuild(tasks, taskIds)[i] != Some(h) {
      RebuiltIsShown(tasks, category, filter, taskIds, i);
    }
    FilterShorter(tasks, p, h);
    assert |taskIds| == |multiset(taskIds)| == |multiset(Ids(view))| == |view|;
  }

  /**
   * When the rendered ids are those of the view, each entry the code rebuilds
   * is a task of the view.
   */
  lemma RebuiltIsShown(tasks: seq<Task>, category: string, filter: StatusFilter, taskIds: seq<int>, i: nat)
    requires UniqueIds(tasks)
    requires multiset(taskIds) == multiset(Ids(FilterTasks(tasks, category, filter)))
    requires i < |taskIds|
    ensures Rebuild(tasks, taskIds)[i].Some?
    ensures Matches(Rebuild(tasks, taskIds)[i].value, category, filter)
  {
    var view := FilterTasks(tasks, category, filter);
    RebuildAt(tasks, taskIds, i);
    assert taskIds[i] in multiset(taskIds);
    var j := IdInIds(view, taskIds[i]);
    FilterMembers(tasks, InView(category, filter), view[j]);
    var found := FindById(tasks, taskIds[i]);
    SameIdSameTask(tasks, found.value, view[j]);
  }

  /** With unique ids, two stored tasks with the same id are the same task. */
  lemma SameIdSameTask(tasks: seq<Task>, a: Task, b: Task)
    requires UniqueIds(tasks) && a in tasks && b in tasks && a.id == b.id
    ensures a == b
  {
  }

  /** An id occurring among the ids of `tasks` belongs to one of them. */
  lemma IdInIds(tasks: seq<Task>, id: int) returns (j: nat)
    requires id in multiset(Ids(tasks))
    ensures j < |tasks| && tasks[j].id == id
  {
    j := IndexOf(Ids(tasks), id);
    MapAt(tasks, IdOf, j);
  }

  /** A filter that rejects an element of `s` shortens it. */
  lemma {:induction false} FilterShorter<T>(s: seq<T>, p: T -> bool, x: T)
    requires x in s && !p(x)
    ensures |Filter(s, p)| < |s|
  {
    if s[0] != x {
      FilterShorter(s[1..], p, x);
    }
  }

  /**
   * The smallest case: a work task and a personal task, viewed in the work
   * category; dropping the work task where it was rebuilds the list without
   * the personal task.
   */
  lemma DragDropsPersonalTask(w: Task, p: Task)
    requires w.id != p.id && w.category == "work" && p.category == "personal"
    ensures Rebuild([w, p], Ids(FilterTasks([w, p], "work", AllStatuses))) == [Some(w)]
  {
    var tasks := [w, p];
    var view := FilterTasks(tasks, "work", AllStatuses);
    var q := InView("work", AllStatuses);
    assert q(w) && !q(p);
    assert tasks[1..] == [p] && tasks[1..][1..] == [];
    assert Filter(tasks, q) == [w] + Filter([p], q) == [w];
    assert view == [w];
    assert Ids(view) == [w.id];
    RebuildAt(tasks, [w.id], 0);
  }

  /**
   * Every id looked up in `ts`: `None` when some id is absent, otherwise the
   * tasks carrying the ids, in the ids' order.
   */
  function LookupAll(ts: seq<Task>, ids: seq<int>): (r: Option<seq<Task>>)
    ensures r.Some? ==> |r.value| == |ids|
    ensures r.Some? ==> forall i :: 0 <= i < |ids| ==> FindById(ts, ids[i]) == Some(r.value[i])
    ensures r.None? <==> exists i :: 0 <= i < |ids| && !HasId(ts, ids[i])
  {
    if ids == [] then Some([])
    else
      assert forall i :: 1 <= i < |ids| ==> ids[i] == ids[1..][i - 1];
      match FindById(ts, ids[0])
      case None => None
      case Some(t) =>
        match LookupAll(ts, ids[1..])
        case None => None
        case Some(rest) => Some([t] + rest)
  }

  /**
   * The stored list with the slots of the tasks passing `p` refilled, in
   * order, from `vis`; the other slots keep their tasks.
   */
  function Fill(tasks: seq<Task>, p: Task -> bool, vis: seq<Task>): (r: seq<Task>)
    ensures |r| == |tasks|
  {
    if tasks == [] then []
    else if p(tasks[0]) && vis != [] then [vis[0]] + Fill(tasks[1..], p, vis[1..])
    else [tasks[0]] + Fill(tasks[1..], p, vis)
  }

  /**
   * The corrected drag-end step: the rendered ids must be the ids of the
   * current view, in any order; the view's tasks are then put in that order
   * into the view's slots of the stored list.
   */
  function ReorderView(tasks: seq<Task>, category: string, filter: StatusFilter, taskIds: seq<int>)
    : (r: Option<seq<Task>>)
    ensures r.Some? ==> multiset(taskIds) == multiset(Ids(FilterTasks(tasks, category, filter)))
    ensures r.Some? ==> |r.value| == |tasks|
  {
    var view := FilterTasks(tasks, category, filter);
    if multiset(taskIds) != multiset(Ids(view)) then None
    else
      match LookupAll(view, taskIds)
      case None => None
      case Some(vis) => Some(Fill(tasks, InView(category, filter), vis))
  }

  /**
   * With unique ids, the corrected step accepts exactly the orders of the
   * view's ids, and then yields a permutation of the stored tasks whose
   * filtered list (in stored order) is the dragged order and whose hidden
   * tasks have not moved.
   */
  lemma ReorderViewSpec(tasks: seq<Task>, category: string, filter: StatusFilter, taskIds: seq<int>)
    requires UniqueIds(tasks)
    ensures ReorderView(tasks, category, filter, taskIds).Some? <==>
            multiset(taskIds) == multiset(Ids(FilterTasks(tasks, category, filter)))
    ensures ReorderView(tasks, category, filter, taskIds).Some? ==>
              var r := ReorderView(tasks, category, filter, taskIds).value;
              && multiset(r) == multiset(tasks)
              && Ids(FilterTasks(r, category, filter)) == taskIds
              && |r| == |tasks|
              && forall i :: 0 <= i < |tasks| && !Matches(tasks[i], category, filter) ==> r[i] == tasks[i]
  {
    var view := FilterTasks(tasks, category, filter);
    var p := InView(category, filter);
    if multiset(taskIds) == multiset(Ids(view)) {
      LookupView(tasks, category, filter, taskIds);
      var vis := LookupAll(view, taskIds).value;
      FillFilter(tasks, p, vis);
      FillKeepsHidden(tasks, p, vis);
      var r := Fill(tasks, p, vis);
      forall x ensures multiset(r)[x] == multiset(tasks)[x] {
        FillMultiset(tasks, p, vis, x);
      }
      forall i | 0 <= i < |taskIds| ensures Ids(Filter(r, p))[i] == taskIds[i] {
        MapAt(vis, IdOf, i);
      }
    }
  }

  /**
   * Looking up a reordering of the view's ids in the view finds every id,
   * yields tasks of the view only, and yields each of them once.
   */
  lemma LookupView(tasks: seq<Task>, category: string, filter: StatusFilter, taskIds: seq<int>)
    requires UniqueIds(tasks)
    requires multiset(taskIds) == multiset(Ids(FilterTasks(tasks, category, filter)))
    ensures LookupAll(FilterTasks(tasks, category, filter), taskIds).Some?
    ensures var vis := LookupAll(FilterTasks(tasks, category, filter), taskIds).value;
            && |vis| == |FilterTasks(tasks, category, filter)|
            && (forall i :: 0 <= i < |vis| ==> InView(category, filter)(vis[i]))
            && multiset(vis) == multiset(FilterTasks(tasks, category, filter))
  {
    var view := FilterTasks(tasks, category, filter);
    var p := InView(category, filter);
    FilterKeepsUniqueIds(tasks, p);
    forall i | 0 <= i < |taskIds| ensures HasId(view, taskIds[i]) {
      assert taskIds[i] in multiset(taskIds);
      var j := IdInIds(view, taskIds[i]);
    }
    var vis := LookupAll(view, taskIds).value;
    forall i | 0 <= i < |vis| ensures p(vis[i]) {
      assert FindById(view, taskIds[i]) == Some(vis[i]);
      FilterMembers(tasks, p, vis[i]);
    }
    LookupPermutation(view, taskIds);
    assert |vis| == |multiset(vis)|;
  }

  /**
   * Looking up a reordering of the ids of uniquely identified tasks yields a
   * reordering of those tasks.
   */
  lemma LookupPermutation(view: seq<Task>, taskIds: seq<int>)
    requires UniqueIds(view)
    requires multiset(taskIds) == multiset(Ids(view))
    requires LookupAll(view, taskIds).Some?
    ensures multiset(LookupAll(view, taskIds).value) == multiset(view)
  {
    var vis := LookupAll(view, taskIds).value;
    if view == [] {
      assert |taskIds| == |Ids(view)| == 0;
    } else {
      var find := (id: int) => FindById(view, id).GetOr(view[0]);
      forall i | 0 <= i < |taskIds| ensures MapSeq(taskIds, find)[i] == vis[i] {
        MapAt(taskIds, find, i);
      }
      forall j | 0 <= j < |view| ensures MapSeq(Ids(view), find)[j] == view[j] {
        MapAt(Ids(view), find, j);
        MapAt(view, IdOf, j);
        FindOwnId(view, j);
      }
      MapPermutation(taskIds, Ids(view), find);
      assert MapSeq(taskIds, find) == vis;
      assert MapSeq(Ids(view), find) == view;
    }
  }

  /** Refilling with as many tasks as there are slots, all passing `p`, makes them the filtered list. */
  lemma {:induction false} FillFilter(tasks: seq<Task>, p: Task -> bool, vis: seq<Task>)
    requires |vis| == |Filter(tasks, p)|
    requires forall i :: 0 <= i < |vis| ==> p(vis[i])
    ensures Filter(Fill(tasks, p, vis), p) == vis
  {
    if tasks != [] {
      if p(tasks[0]) {
        FillFilter(tasks[1..], p, vis[1..]);
        assert vis == [vis[0]] + vis[1..];
      } else {
        FillFilter(tasks[1..], p, vis);
      }
    }
  }

  /** Refilling swaps the filtered tasks for the refill: counted for each task `x`. */
  lemma {:induction false} FillMultiset(tasks: seq<Task>, p: Task -> bool, vis: seq<Task>, x: Task)
    requires |vis| == |Filter(tasks, p)|
    ensures multiset(Fill(tasks, p, vis))[x] + multiset(Filter(tasks, p))[x] == multiset(tasks)[x] + multiset(vis)[x]
  {
    if tasks != [] {
      var t, tail := tasks[0], tasks[1..];
      assert tasks == [t] + tail;
      if p(t) {
        var v, more := vis[0], vis[1..];
        FillMultiset(tail, p, more, x);
        assert vis == [v] + more;
        assert Fill(tasks, p, vis) == [v] + Fill(tail, p, more);
        assert Filter(tasks, p) == [t] + Filter(tail, p);
      } else {
        FillMultiset(tail, p, vis, x);
        assert Fill(tasks, p, vis) == [t] + Fill(tail, p, vis);
        assert Filter(tasks, p) == Filter(tail, p);
      }
    }
  }

  /** Refilling leaves the slots of the tasks failing `p` alone. */
  lemma {:induction false} FillKeepsHidden(tasks: seq<Task>, p: Task -> bool, vis: seq<Task>)
    ensures forall i :: 0 <= i < |tasks| && !p(tasks[i]) ==> Fill(tasks, p, vis)[i] == tasks[i]
  {
    if tasks != [] {
      if p(tasks[0]) && vis != [] {
        FillKeepsHidden(tasks[1..], p, vis[1..]);
      } else {
        FillKeepsHidden(tasks[1..], p, vis);
      }
      var r := Fill(tasks, p, vis);
      assert forall i :: 1 <= i < |tasks| ==> r[i] == r[1..][i - 1] && tasks[i] == tasks[1..][i - 1];
    }
  }

  /**
   * In the unfiltered view the corrected step does what the code does: every
   * rendered id is found and the rebuilt list is the corrected result.
   */
  lemma ReorderAgreesUnfiltered(tasks: seq<Task>, taskIds: seq<int>)
    requires UniqueIds(tasks)
    requires multiset(taskIds) == multiset(Ids(tasks))
    ensures ReorderView(tasks, AllId, AllStatuses, taskIds).Some?
    ensures var r := ReorderView(tasks, AllId, AllStatuses, taskIds).value;
            |r| == |taskIds| && forall i :: 0 <= i < |taskIds| ==> Rebuild(tasks, taskIds)[i] == Some(r[i])
  {
    FilterAllShowsAll(tasks);
    ReorderViewSpec(tasks, AllId, AllStatuses, taskIds);
    var vis := LookupAll(tasks, taskIds).value;
    var p := InView(AllId, AllStatuses);
    assert |vis| == |taskIds| == |multiset(taskIds)| == |multiset(Ids(tasks))| == |tasks|;
    FilterKeepsAll(tasks, p);
    FillAll(tasks, p, vis);
    forall i | 0 <= i < |taskIds| ensures Rebuild(tasks, taskIds)[i] == Some(vis[i]) {
      RebuildAt(tasks, taskIds, i);
    }
  }

  /** When every task passes `p`, refilling with as many tasks replaces the list. */
  lemma {:induction false} FillAll(tasks: seq<Task>, p: Task -> bool, vis: seq<Task>)
    requires forall i :: 0 <= i < |tasks| ==> p(tasks[i])
    requires |vis| == |tasks|
    ensures Fill(tasks, p, vis) == vis
  {
    if tasks != [] {
      FillAll(tasks[1..], p, vis[1..]);
      assert vis == [vis[0]] + vis[1..];
    }
  }
}
