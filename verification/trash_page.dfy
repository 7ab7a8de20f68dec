/** The trash page: every soft-deleted task, with "Restore" and
    "Delete Permanently" actions. */
module TrashPage {
  import opened Seqs
  import opened TaskStore

  predicate InTrash(t: Task) {
    t.isDeleted
  }

  /** `tasks.filter(task => task.isDeleted)`, completed or not. */
  function TrashView(tasks: seq<Task>): (r: seq<Task>)
    ensures forall i :: 0 <= i < |r| ==> r[i] in tasks && r[i].isDeleted
    ensures forall i :: 0 <= i < |tasks| && tasks[i].isDeleted ==> tasks[i] in r
  {
    Filter(tasks, InTrash)
  }

  /** "No deleted tasks." is shown exactly when nothing is in the trash. */
  function ShowsEmptyMessage(tasks: seq<Task>): (r: bool)
    ensures r <==> forall i :: 0 <= i < |tasks| ==> !tasks[i].isDeleted
  {
    var view := TrashView(tasks);
    assert |view| > 0 ==> exists i :: 0 <= i < |tasks| && tasks[i] == view[0];
    |view| == 0
  }

  /** "Restore": `restoreTask(task.id)`. */
  function Restore(tasks: seq<Task>, id: TaskId): (r: seq<Task>)
    ensures |r| == |tasks|
    ensures forall i :: 0 <= i < |tasks| ==>
              if tasks[i].id == id then r[i] == tasks[i].(isDeleted := false) else r[i] == tasks[i]
  {
    RestoreTask(tasks, id)
  }

  /** "Delete Permanently": `deleteTask(task.id)`. */
  function DeletePermanently(tasks: seq<Task>, id: TaskId): (r: seq<Task>)
    ensures |r| <= |tasks|
    ensures forall i :: 0 <= i < |r| ==> r[i] in tasks && r[i].id != id
    ensures forall i :: 0 <= i < |tasks| && tasks[i].id != id ==> tasks[i] in r
  {
    DeleteTask(tasks, id)
  }
}
