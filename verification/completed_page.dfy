/** The completed-tasks page: every completed task, with an "Incomplete"
    action. */
module CompletedPage {
  import opened Options
  import opened Seqs
  import opened TaskStore

  predicate IsDone(t: Task) {
    t.isCompleted
  }

  /** `tasks.filter(task => task.isCompleted)`, in the trash or not. */
  function CompletedView(tasks: seq<Task>): (r: seq<Task>)
    ensures forall i :: 0 <= i < |r| ==> r[i] in tasks && r[i].isCompleted
    ensures forall i :: 0 <= i < |tasks| && tasks[i].isCompleted ==> tasks[i] in r
  {
    Filter(tasks, IsDone)
  }

  /** "No completed tasks yet." is shown exactly when nothing is
      completed. */
  function ShowsEmptyMessage(tasks: seq<Task>): (r: bool)
    ensures r <==> forall i :: 0 <= i < |tasks| ==> !tasks[i].isCompleted
  {
    var view := CompletedView(tasks);
    assert |view| > 0 ==> exists i :: 0 <= i < |tasks| && tasks[i] == view[0];
    |view| == 0
  }

  /** "Incomplete": `updateTask(task.id, { isCompleted: false })`. */
  const IncompletePatch := EmptyPatch.(isCompleted := Some(false))

  function MarkIncomplete(tasks: seq<Task>, id: TaskId, now: Timestamp): (r: seq<Task>)
    ensures |r| == |tasks|
    ensures forall i :: 0 <= i < |tasks| ==>
              if tasks[i].id == id
              then r[i] == tasks[i].(isCompleted := false, lastUpdated := now)
              else r[i] == tasks[i]
  {
    UpdateTask(tasks, id, IncompletePatch, now)
  }
}
