/** The client-side task store (`TaskProvider`): a list of tasks kept in
    insertion order, with soft deletion (`isDeleted`) and completion
    (`isCompleted`) flags. Every operation is a pure function from the old
    list to the new one. The clock (`new Date().toISOString()`) and the id
    source (`Date.now()`) are parameters; ids are not assumed unique. */
module TaskStore {
  import opened Options
  import opened Seqs

  type TaskId = int
  /** An ISO-8601 timestamp, treated as opaque text. */
  type Timestamp = string

  datatype Task = Task(
    id: TaskId,
    title: string,
    description: string,
    dateCreated: Timestamp,
    lastUpdated: Timestamp,
    isDeleted: bool,
    isCompleted: bool)

  /** `Partial<Task>`: every field may be supplied or left out. */
  datatype TaskPatch = TaskPatch(
    id: Option<TaskId>,
    title: Option<string>,
    description: Option<string>,
    dateCreated: Option<Timestamp>,
    lastUpdated: Option<Timestamp>,
    isDeleted: Option<bool>,
    isCompleted: Option<bool>)

  /** The empty patch `{}`. */
  const EmptyPatch := TaskPatch(None, None, None, None, None, None, None)

  /** Some task in `tasks` carries `id`. */
  predicate HasId(tasks: seq<Task>, id: TaskId) {
    exists i | 0 <= i < |tasks| :: tasks[i].id == id
  }

  /** `prev.map(task => task.id === id ? f(task) : task)`. */
  function MapMatching(tasks: seq<Task>, id: TaskId, f: Task -> Task): (r: seq<Task>)
    ensures |r| == |tasks|
    ensures forall i :: 0 <= i < |tasks| && tasks[i].id != id ==> r[i] == tasks[i]
    ensures forall i :: 0 <= i < |tasks| && tasks[i].id == id ==> r[i] == f(tasks[i])
    ensures !HasId(tasks, id) ==> r == tasks
  {
    seq(|tasks|, i requires 0 <= i < |tasks| => if tasks[i].id == id then f(tasks[i]) else tasks[i])
  }

  /** `addTask`: append a fresh, active task created at `now`. */
  function AddTask(tasks: seq<Task>, title: string, description: string,
                   id: TaskId, now: Timestamp): (r: seq<Task>)
    ensures |r| == |tasks| + 1
    ensures r[..|tasks|] == tasks
    ensures var t := r[|tasks|];
            && t.id == id && t.title == title && t.description == description
            && !t.isDeleted && !t.isCompleted
            && t.dateCreated == now && t.lastUpdated == t.dateCreated
  {
    tasks + [Task(id, title, description, now, now, false, false)]
  }

  /** The record `updateTask` builds from a matching task: the supplied
      fields win, the timestamp is always renewed, and completing an
      already completed task forces it into the trash. */
  function Merge(t: Task, u: TaskPatch, now: Timestamp): (r: Task)
    ensures r.id == u.id.GetOr(t.id)
    ensures r.title == u.title.GetOr(t.title)
    ensures r.description == u.description.GetOr(t.description)
    ensures r.dateCreated == u.dateCreated.GetOr(t.dateCreated)
    ensures r.lastUpdated == now
    ensures r.isCompleted == u.isCompleted.GetOr(t.isCompleted)
    ensures u.isCompleted == Some(true) && t.isCompleted ==> r.isDeleted
    ensures !(u.isCompleted == Some(true) && t.isCompleted) ==>
              r.isDeleted == u.isDeleted.GetOr(t.isDeleted)
  {
    var spread := Task(
      u.id.GetOr(t.id),
      u.title.GetOr(t.title),
      u.description.GetOr(t.description),
      u.dateCreated.GetOr(t.dateCreated),
      u.lastUpdated.GetOr(t.lastUpdated),
      u.isDeleted.GetOr(t.isDeleted),
      u.isCompleted.GetOr(t.isCompleted));
    var forceTrash := u.isCompleted == Some(true) && t.isCompleted;
    spread.(lastUpdated := now,
            isDeleted := if forceTrash then true else u.isDeleted.GetOr(t.isDeleted))
  }

  /** `updateTask(id, updates)`. */
  function UpdateTask(tasks: seq<Task>, id: TaskId, u: TaskPatch, now: Timestamp): (r: seq<Task>)
    ensures |r| == |tasks|
    ensures forall i :: 0 <= i < |tasks| && tasks[i].id != id ==> r[i] == tasks[i]
    ensures forall i :: 0 <= i < |tasks| && tasks[i].id == id ==> r[i] == Merge(tasks[i], u, now)
    ensures !HasId(tasks, id) ==> r == tasks
  {
    MapMatching(tasks, id, (t: Task) => Merge(t, u, now))
  }

  /** `restoreTask(id)`: take matching tasks out of the trash, touching no
      other field (not even `lastUpdated`). */
  function RestoreTask(tasks: seq<Task>, id: TaskId): (r: seq<Task>)
    ensures |r| == |tasks|
    ensures forall i :: 0 <= i < |tasks| && tasks[i].id != id ==> r[i] == tasks[i]
    ensures forall i :: 0 <= i < |tasks| && tasks[i].id == id ==>
              !r[i].isDeleted && r[i] == tasks[i].(isDeleted := false)
    ensures !HasId(tasks, id) ==> r == tasks
  {
    MapMatching(tasks, id, (t: Task) => t.(isDeleted := false))
  }

  /** `deleteTask(id)`: permanently remove every task carrying `id`. */
  function DeleteTask(tasks: seq<Task>, id: TaskId): (r: seq<Task>)
    ensures forall i :: 0 <= i < |r| ==> r[i] in tasks && r[i].id != id
    ensures forall i :: 0 <= i < |tasks| && tasks[i].id != id ==> tasks[i] in r
    ensures !HasId(r, id)
  {
    Filter(tasks, (t: Task) => t.id != id)
  }

  /** Deleting keeps the surviving tasks in their order: removal commutes
      with splitting the list anywhere. */
  lemma DeleteKeepsOrder(a: seq<Task>, b: seq<Task>, id: TaskId)
    ensures DeleteTask(a + b, id) == DeleteTask(a, id) + DeleteTask(b, id)
  {
    FilterConcat(a, b, (t: Task) => t.id != id);
  }

  /** Deleting a task that is not there changes nothing. */
  lemma DeleteAbsent(tasks: seq<Task>, id: TaskId)
    requires !HasId(tasks, id)
    ensures DeleteTask(tasks, id) == tasks
  {
    FilterKeepsAll(tasks, (t: Task) => t.id != id);
  }

  /** Deleting twice is deleting once. */
  lemma DeleteIdempotent(tasks: seq<Task>, id: TaskId)
    ensures DeleteTask(DeleteTask(tasks, id), id) == DeleteTask(tasks, id)
  {
    DeleteAbsent(DeleteTask(tasks, id), id);
  }

  /** Once a task is deleted, updating or restoring its id is a no-op. */
  lemma NoOpsAfterDelete(tasks: seq<Task>, id: TaskId, u: TaskPatch, now: Timestamp)
    ensures UpdateTask(DeleteTask(tasks, id), id, u, now) == DeleteTask(tasks, id)
    ensures RestoreTask(DeleteTask(tasks, id), id) == DeleteTask(tasks, id)
  {
  }

  /** Restoring twice is restoring once. */
  lemma RestoreIdempotent(tasks: seq<Task>, id: TaskId)
    ensures RestoreTask(RestoreTask(tasks, id), id) == RestoreTask(tasks, id)
  {
  }

  /** A patch that neither re-targets the id nor completes the task (an
      edit, a soft delete, an "Incomplete") gives the same list when
      applied twice at the same instant. */
  lemma UpdateIdempotent(tasks: seq<Task>, id: TaskId, u: TaskPatch, now: Timestamp)
    requires u.id.None? && u.isCompleted != Some(true)
    ensures UpdateTask(UpdateTask(tasks, id, u, now), id, u, now) == UpdateTask(tasks, id, u, now)
  {
  }

  /** Completing twice: after a second update that sends
      `isCompleted: true`, every task carrying `id` is both completed and
      in the trash, whatever `isDeleted` the second update supplied. */
  lemma CompleteTwiceTrashes(tasks: seq<Task>, id: TaskId, first: TaskPatch, second: TaskPatch,
                             t1: Timestamp, t2: Timestamp)
    requires first.id.None? && first.isCompleted == Some(true)
    requires second.isCompleted == Some(true)
    ensures var r := UpdateTask(UpdateTask(tasks, id, first, t1), id, second, t2);
            forall i :: 0 <= i < |tasks| && tasks[i].id == id ==>
              r[i].isCompleted && r[i].isDeleted && r[i].lastUpdated == t2
  {
  }
}
