/** The dashboard (`Home`): the active tasks filtered by a title search,
    long descriptions cut at twenty words, and the three card actions
    (complete, edit, delete), each one `updateTask` call. */
module HomePage {
  import opened Options
  import opened Seqs
  import opened Text
  import opened TaskStore

  /** Neither in the trash nor completed. */
  predicate IsActive(t: Task) {
    !t.isDeleted && !t.isCompleted
  }

  /** The lower-cased title includes the lower-cased search text. */
  predicate MatchesSearch(t: Task, search: string) {
    Contains(Lower(t.title), Lower(search))
  }

  /** The cards on the dashboard, in list order. */
  function ActiveView(tasks: seq<Task>, search: string): (r: seq<Task>)
    ensures forall i :: 0 <= i < |r| ==> r[i] in tasks && IsActive(r[i]) && MatchesSearch(r[i], search)
    ensures forall i :: 0 <= i < |tasks| && IsActive(tasks[i]) && MatchesSearch(tasks[i], search) ==>
              tasks[i] in r
  {
    Filter(tasks, (t: Task) => IsActive(t) && MatchesSearch(t, search))
  }

  /** "No tasks yet." is shown exactly when no task is active and matches
      the search. */
  function ShowsNoTasksMessage(tasks: seq<Task>, search: string): (r: bool)
    ensures r <==> forall i :: 0 <= i < |tasks| ==> !(IsActive(tasks[i]) && MatchesSearch(tasks[i], search))
  {
    var view := ActiveView(tasks, search);
    assert |view| > 0 ==> exists i :: 0 <= i < |tasks| && tasks[i] == view[0];
    |view| == 0
  }

  /** With an empty search box the dashboard lists every active task. */
  lemma EmptySearchShowsAllActive(tasks: seq<Task>)
    ensures ActiveView(tasks, "") == Filter(tasks, IsActive)
  {
    forall t: Task ensures MatchesSearch(t, "") {
      assert Lower("") == "";
      ContainsEmpty(Lower(t.title));
    }
    FilterCongruent(tasks, (t: Task) => IsActive(t) && MatchesSearch(t, ""), IsActive);
  }

  /** The search is case-insensitive: changing the case of ASCII letters
      in the search text does not change the view. */
  lemma SearchIgnoresCase(tasks: seq<Task>, a: string, b: string)
    requires Lower(a) == Lower(b)
    ensures ActiveView(tasks, a) == ActiveView(tasks, b)
  {
    FilterCongruent(tasks, (t: Task) => IsActive(t) && MatchesSearch(t, a),
                           (t: Task) => IsActive(t) && MatchesSearch(t, b));
  }

  /** How many words a description is cut after. */
  const WordLimit := 20

  /** The description text on a card: in full when the card is expanded or
      the text has at most twenty space-separated pieces, else the first
      twenty pieces followed by "...". */
  function DescriptionText(description: string, expanded: bool): (r: string)
    ensures expanded || Count(description, ' ') < WordLimit ==> r == description
    ensures !expanded && Count(description, ' ') >= WordLimit ==>
              var k := |r| - 3;
              && |r| >= 3 && r[k..] == "..."
              && k < |description| && description[k] == ' '
              && r[..k] == description[..k]
              && Count(description[..k], ' ') == WordLimit - 1
  {
    var pieces := Split(description, ' ');
    if expanded || |pieces| <= WordLimit then description
    else
      SplitPrefix(description, ' ', WordLimit);
      Join(pieces[..WordLimit], ' ') + "..."
  }

  /** The "Read more" button appears exactly when the text is cut. */
  function ShowsReadMore(description: string, expanded: bool): (r: bool)
    ensures r <==> DescriptionText(description, expanded) != description
  {
    !expanded && |Split(description, ' ')| > WordLimit
  }

  /** The "isComplete" button: `updateTask(task.id, { isCompleted: true })`. */
  const CompletePatch := EmptyPatch.(isCompleted := Some(true))

  function Complete(tasks: seq<Task>, id: TaskId, now: Timestamp): (r: seq<Task>)
    ensures |r| == |tasks|
    ensures forall i :: 0 <= i < |tasks| ==>
              if tasks[i].id == id
              then r[i] == tasks[i].(isCompleted := true, isDeleted := tasks[i].isDeleted || tasks[i].isCompleted,
                                     lastUpdated := now)
              else r[i] == tasks[i]
  {
    UpdateTask(tasks, id, CompletePatch, now)
  }

  /** The edit dialog's "Save": when an edited task is open and its title
      is not blank, send the new title and description. */
  function SaveEdit(tasks: seq<Task>, editTask: Option<Task>, title: string,
                    description: string, now: Timestamp): (r: seq<Task>)
    ensures editTask.None? || IsBlank(title) ==> r == tasks
    ensures editTask.Some? && !IsBlank(title) ==>
              && |r| == |tasks|
              && forall i :: 0 <= i < |tasks| ==>
                   r[i] == if tasks[i].id == editTask.value.id
                           then tasks[i].(title := title, description := description, lastUpdated := now)
                           else tasks[i]
  {
    if editTask.Some? && !IsBlank(title) then
      UpdateTask(tasks, editTask.value.id,
                 EmptyPatch.(title := Some(title), description := Some(description)), now)
    else tasks
  }

  /** The delete dialog's confirm button: move the chosen task to the
      trash with `updateTask(task.id, { isDeleted: true })`. */
  const TrashPatch := EmptyPatch.(isDeleted := Some(true))

  function ConfirmDelete(tasks: seq<Task>, taskToDelete: Option<Task>, now: Timestamp): (r: seq<Task>)
    ensures taskToDelete.None? ==> r == tasks
    ensures taskToDelete.Some? ==> |r| == |tasks|
    ensures taskToDelete.Some? ==> forall i :: 0 <= i < |tasks| ==>
              if tasks[i].id == taskToDelete.value.id
              then r[i] == tasks[i].(isDeleted := true, lastUpdated := now)
              else r[i] == tasks[i]
  {
    if taskToDelete.Some? then UpdateTask(tasks, taskToDelete.value.id, TrashPatch, now)
    else tasks
  }
}
