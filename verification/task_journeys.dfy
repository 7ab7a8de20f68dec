/** How the page actions move tasks between the three views: the
    dashboard's active view, the completed page and the trash. Each lemma
    follows every task carrying the acted-on id (ids are not assumed
    unique, so a statement about "the task" covers all of them). */
module TaskJourneys {
  import opened Options
  import opened Seqs
  import opened Text
  import opened TaskStore
  import opened HomePage
  import opened TrashPage
  import opened CompletedPage
  import opened AddTasksPage

  /** Every task passes an empty search. */
  lemma EmptySearchMatches(t: Task)
    ensures MatchesSearch(t, "")
  {
    assert Lower("") == "";
    ContainsEmpty(Lower(t.title));
  }

  /** "isComplete" on an active task moves it from the dashboard to the
      completed page, and not into the trash; afterwards no task with that
      id is on the dashboard. */
  lemma CompleteMovesToCompleted(tasks: seq<Task>, id: TaskId, now: Timestamp, search: string)
    ensures var r := Complete(tasks, id, now);
            && (forall i :: 0 <= i < |tasks| && tasks[i].id == id && IsActive(tasks[i]) ==>
                  && r[i] in CompletedView(r)
                  && r[i] !in TrashView(r)
                  && r[i] !in ActiveView(r, search))
            && !HasId(ActiveView(r, search), id)
  {
    var r := Complete(tasks, id, now);
    var view := ActiveView(r, search);
    forall j | 0 <= j < |view|
      ensures view[j].id != id
    {
      var k :| 0 <= k < |r| && r[k] == view[j];
    }
  }

  /** Completing twice: the second "isComplete" (sent from a card still
      showing, or any other caller) puts every task with that id into the
      trash while it stays on the completed page. */
  lemma CompleteTwiceMovesToTrash(tasks: seq<Task>, id: TaskId, t1: Timestamp, t2: Timestamp, search: string)
    ensures var r := Complete(Complete(tasks, id, t1), id, t2);
            && (forall i :: 0 <= i < |tasks| && tasks[i].id == id ==>
                  r[i] in TrashView(r) && r[i] in CompletedView(r) && r[i] !in ActiveView(r, search))
  {
    CompleteTwiceTrashes(tasks, id, CompletePatch, CompletePatch, t1, t2);
  }

  /** The confirmed delete dialog moves the task from the dashboard into
      the trash, leaving its completion flag alone. */
  lemma ConfirmDeleteMovesToTrash(tasks: seq<Task>, t: Task, now: Timestamp, search: string)
    ensures var r := ConfirmDelete(tasks, Some(t), now);
            && (forall i :: 0 <= i < |tasks| && tasks[i].id == t.id ==>
                  && r[i] in TrashView(r) && r[i] !in ActiveView(r, search)
                  && r[i].isCompleted == tasks[i].isCompleted)
            && !HasId(ActiveView(r, search), t.id)
  {
    var r := ConfirmDelete(tasks, Some(t), now);
    var view := ActiveView(r, search);
    forall j | 0 <= j < |view|
      ensures view[j].id != t.id
    {
      var k :| 0 <= k < |r| && r[k] == view[j];
    }
  }

  /** "Restore" takes the task out of the trash and back to where its
      completion flag says: the completed page, or the dashboard. */
  lemma RestoreLeavesTrash(tasks: seq<Task>, id: TaskId)
    ensures var r := Restore(tasks, id);
            && !HasId(TrashView(r), id)
            && forall i :: 0 <= i < |tasks| && tasks[i].id == id ==>
                 && r[i].isCompleted == tasks[i].isCompleted
                 && (tasks[i].isCompleted ==> r[i] in CompletedView(r))
                 && (!tasks[i].isCompleted ==> r[i] in ActiveView(r, ""))
  {
    var r := Restore(tasks, id);
    var view := TrashView(r);
    forall j | 0 <= j < |view|
      ensures view[j].id != id
    {
      var k :| 0 <= k < |r| && r[k] == view[j];
    }
    forall i | 0 <= i < |tasks| && tasks[i].id == id
      ensures !tasks[i].isCompleted ==> r[i] in ActiveView(r, "")
    {
      EmptySearchMatches(r[i]);
    }
  }

  /** "Delete Permanently" removes the task from every view. */
  lemma PurgeLeavesEveryView(tasks: seq<Task>, id: TaskId, search: string)
    ensures var r := DeletePermanently(tasks, id);
            !HasId(ActiveView(r, search), id) && !HasId(TrashView(r), id) && !HasId(CompletedView(r), id)
  {
    var r := DeletePermanently(tasks, id);
    var a, t, c := ActiveView(r, search), TrashView(r), CompletedView(r);
    forall j | 0 <= j < |a| ensures a[j].id != id {
      var k :| 0 <= k < |r| && r[k] == a[j];
    }
    forall j | 0 <= j < |t| ensures t[j].id != id {
      var k :| 0 <= k < |r| && r[k] == t[j];
    }
    forall j | 0 <= j < |c| ensures c[j].id != id {
      var k :| 0 <= k < |r| && r[k] == c[j];
    }
  }

  /** "Incomplete" takes the task off the completed page without the
      forced-trash rule firing: it keeps its trash flag, so it is back on
      the dashboard unless it was in the trash. */
  lemma IncompleteLeavesCompleted(tasks: seq<Task>, id: TaskId, now: Timestamp)
    ensures var r := MarkIncomplete(tasks, id, now);
            && !HasId(CompletedView(r), id)
            && forall i :: 0 <= i < |tasks| && tasks[i].id == id ==>
                 && r[i].isDeleted == tasks[i].isDeleted
                 && (!tasks[i].isDeleted ==> r[i] in ActiveView(r, ""))
  {
    var r := MarkIncomplete(tasks, id, now);
    var view := CompletedView(r);
    forall j | 0 <= j < |view|
      ensures view[j].id != id
    {
      var k :| 0 <= k < |r| && r[k] == view[j];
    }
    forall i | 0 <= i < |tasks| && tasks[i].id == id
      ensures !tasks[i].isDeleted ==> r[i] in ActiveView(r, "")
    {
      EmptySearchMatches(r[i]);
    }
  }

  /** A task added from the form shows on the dashboard (with an empty
      search) and on neither of the other pages. */
  lemma AddedTaskIsActive(form: AddForm, tasks: seq<Task>, id: TaskId, now: Timestamp)
    requires !IsBlank(form.title)
    ensures var r := Submit(true, form, tasks, id, now).1;
            var t := r[|tasks|];
            t in ActiveView(r, "") && t !in TrashView(r) && t !in CompletedView(r)
  {
    var r := Submit(true, form, tasks, id, now).1;
    EmptySearchMatches(r[|tasks|]);
  }

  /** Adding a task under a fresh id and purging that id gives back the
      list as it was. */
  lemma AddThenPurge(tasks: seq<Task>, title: string, description: string, id: TaskId, now: Timestamp)
    requires !HasId(tasks, id)
    ensures DeletePermanently(AddTask(tasks, title, description, id, now), id) == tasks
  {
    var added := AddTask(tasks, title, description, id, now);
    assert added == tasks + [added[|tasks|]];
    DeleteKeepsOrder(tasks, [added[|tasks|]], id);
    DeleteAbsent(tasks, id);
  }

  /** A view of a list holds no task with `id` when the list holds none. */
  lemma FilterFresh(tasks: seq<Task>, id: TaskId, p: Task -> bool)
    requires !HasId(tasks, id)
    ensures !HasId(Filter(tasks, p), id)
  {
    var f := Filter(tasks, p);
    forall j | 0 <= j < |f| ensures f[j].id != id {
      var k :| 0 <= k < |tasks| && tasks[k] == f[j];
    }
  }

  /** When only the last task `x` carries `id`, a view shows that id
      exactly when it shows `x`. */
  lemma FilterLast(tasks: seq<Task>, x: Task, id: TaskId, p: Task -> bool)
    requires !HasId(tasks, id) && x.id == id
    ensures HasId(Filter(tasks + [x], p), id) <==> p(x)
  {
    FilterConcat(tasks, [x], p);
    FilterFresh(tasks, id, p);
    var f := Filter(tasks + [x], p);
    if p(x) {
      assert f[|f| - 1] == x;
    } else {
      assert f == Filter(tasks, p);
    }
  }

  /** The three views of a list whose last task alone carries `id`. */
  lemma ViewsOfLast(tasks: seq<Task>, x: Task, id: TaskId)
    requires !HasId(tasks, id) && x.id == id
    ensures HasId(ActiveView(tasks + [x], ""), id) <==> IsActive(x)
    ensures HasId(TrashView(tasks + [x]), id) <==> x.isDeleted
    ensures HasId(CompletedView(tasks + [x]), id) <==> x.isCompleted
    ensures TrashView(tasks + [x]) == TrashView(tasks) + (if x.isDeleted then [x] else [])
  {
    EmptySearchMatches(x);
    FilterLast(tasks, x, id, (t: Task) => IsActive(t) && MatchesSearch(t, ""));
    FilterLast(tasks, x, id, InTrash);
    FilterLast(tasks, x, id, IsDone);
    FilterConcat(tasks, [x], InTrash);
  }

  /** Acting on a fresh id that only the last task carries leaves the rest
      of the list alone. */
  lemma ActOnLast(tasks: seq<Task>, x: Task, id: TaskId, u: TaskPatch, now: Timestamp)
    requires !HasId(tasks, id) && x.id == id
    ensures UpdateTask(tasks + [x], id, u, now) == tasks + [Merge(x, u, now)]
    ensures RestoreTask(tasks + [x], id) == tasks + [x.(isDeleted := false)]
    ensures DeleteTask(tasks + [x], id) == tasks
  {
    DeleteKeepsOrder(tasks, [x], id);
    DeleteAbsent(tasks, id);
  }

  /** The whole life of one task under a fresh id: added (on the
      dashboard), completed (on the completed page only), completed again
      (also in the trash), restored (off the trash, which is as it was
      before, still on the completed page), purged (the list as it was
      before). */
  lemma Lifecycle(tasks: seq<Task>, title: string, description: string, id: TaskId,
                  t0: Timestamp, t1: Timestamp, t2: Timestamp)
    requires !HasId(tasks, id)
    ensures var s0 := AddTask(tasks, title, description, id, t0);
            var s1 := Complete(s0, id, t1);
            var s2 := Complete(s1, id, t2);
            var s3 := Restore(s2, id);
            var s4 := DeletePermanently(s3, id);
            && HasId(ActiveView(s0, ""), id)
            && HasId(CompletedView(s1), id) && !HasId(ActiveView(s1, ""), id) && !HasId(TrashView(s1), id)
            && HasId(TrashView(s2), id) && HasId(CompletedView(s2), id)
            && !HasId(TrashView(s3), id) && HasId(CompletedView(s3), id)
            && TrashView(s3) == TrashView(tasks)
            && s4 == tasks
  {
    var x0 := Task(id, title, description, t0, t0, false, false);
    assert AddTask(tasks, title, description, id, t0) == tasks + [x0];
    var x1 := Merge(x0, CompletePatch, t1);
    var x2 := Merge(x1, CompletePatch, t2);
    var x3 := x2.(isDeleted := false);
    ActOnLast(tasks, x0, id, CompletePatch, t1);
    ActOnLast(tasks, x1, id, CompletePatch, t2);
    ActOnLast(tasks, x2, id, CompletePatch, t2);
    ActOnLast(tasks, x3, id, CompletePatch, t2);
    ViewsOfLast(tasks, x0, id);
    ViewsOfLast(tasks, x1, id);
    ViewsOfLast(tasks, x2, id);
    ViewsOfLast(tasks, x3, id);
  }
}
