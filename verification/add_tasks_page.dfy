/** The "Add Tasks" form: a title and a description, submitted through
    `handleAddTask`. */
module AddTasksPage {
  import opened Text
  import opened TaskStore

  datatype AddForm = AddForm(title: string, description: string, success: bool)

  /** Submitting the form. An anonymous visitor never gets the form (the
      page redirects and renders nothing), so nothing happens; a blank
      title is ignored; otherwise the task is added with the title and
      description exactly as typed, and the form is cleared. */
  function Submit(authenticated: bool, form: AddForm, tasks: seq<Task>,
                  id: TaskId, now: Timestamp): (r: (AddForm, seq<Task>))
    ensures !authenticated || IsBlank(form.title) ==> r == (form, tasks)
    ensures authenticated && !IsBlank(form.title) ==>
              && r.0 == AddForm("", "", true)
              && |r.1| == |tasks| + 1 && r.1[..|tasks|] == tasks
              && r.1[|tasks|].title == form.title
              && r.1[|tasks|].description == form.description
              && r.1[|tasks|].id == id
              && !r.1[|tasks|].isDeleted && !r.1[|tasks|].isCompleted
  {
    if !authenticated || IsBlank(form.title) then (form, tasks)
    else (AddForm("", "", true), AddTask(tasks, form.title, form.description, id, now))
  }

  /** A title made only of whitespace adds nothing. */
  lemma WhitespaceTitleAddsNothing(form: AddForm, tasks: seq<Task>, id: TaskId, now: Timestamp)
    requires forall i :: 0 <= i < |form.title| ==> IsJsWhitespace(form.title[i])
    ensures Submit(true, form, tasks, id, now).1 == tasks
  {
    BlankIffAllWhitespace(form.title);
  }
}
