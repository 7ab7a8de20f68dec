/** The browser's local storage as the client uses it: three slots, keyed
    "token", "user" and "tasks". JSON encoding is abstracted: a slot holds
    the document itself, except that the "tasks" slot may also hold text
    that is not a task list (which `JSON.parse` rejects). */
module Storage {
  import opened Options
  import opened TaskStore

  /** The signed-in user's profile (`User` in the client). */
  datatype User = User(
    id: string,
    username: string,
    email: string,
    avatar: string,
    firstName: Option<string>,
    lastName: Option<string>)

  /** What the "tasks" slot can hold: a serialised task list, or some other
      text. */
  datatype TasksSlot = Doc(tasks: seq<Task>) | Junk(text: string)

  /** The three slots; `None` is a removed or never-written key. */
  datatype Store = Store(token: Option<string>, user: Option<User>, tasks: Option<TasksSlot>)

  datatype LoadError = ParseError

  /** The initial state of `TaskProvider`: `saved ? JSON.parse(saved) : []`.
      A missing slot and the empty string are falsy and give the empty
      list; text that is not a task list makes the parse throw. */
  function LoadTasks(store: Store): (r: Result<seq<Task>, LoadError>)
    ensures store.tasks.None? ==> r == Success([])
    ensures store.tasks == Some(Junk("")) ==> r == Success([])
    ensures forall ts :: store.tasks == Some(Doc(ts)) ==> r == Success(ts)
    ensures r.Failure? <==> exists t :: t != "" && store.tasks == Some(Junk(t))
  {
    match store.tasks
    case None => Success([])
    case Some(Doc(ts)) => Success(ts)
    case Some(Junk(t)) => if t == "" then Success([]) else Failure(ParseError)
  }

  /** The effect that runs whenever the task list changes: write the whole
      list to the "tasks" slot and leave the other slots alone. */
  function PersistTasks(store: Store, tasks: seq<Task>): (r: Store)
    ensures r.tasks == Some(Doc(tasks))
    ensures r.token == store.token && r.user == store.user
  {
    store.(tasks := Some(Doc(tasks)))
  }

  /** The durable copy of the task list is the in-memory one. */
  predicate Mirrors(store: Store, tasks: seq<Task>) {
    store.tasks == Some(Doc(tasks))
  }

  /** Mounting `TaskProvider`: load the list, then the persisting effect
      writes it straight back. */
  function StartTasks(store: Store): (r: Result<(seq<Task>, Store), LoadError>)
    ensures r.Success? ==> Mirrors(r.value.1, r.value.0)
    ensures r.Success? ==> r.value.1.token == store.token && r.value.1.user == store.user
    ensures r.Failure? <==> LoadTasks(store).Failure?
    ensures r.Success? ==> LoadTasks(store) == Success(r.value.0)
  {
    match LoadTasks(store)
    case Failure(e) => Failure(e)
    case Success(ts) => Success((ts, PersistTasks(store, ts)))
  }

  /** Persisting and then loading again gives back the same list, and a
      restart on a persisted list changes nothing. */
  lemma PersistThenLoad(store: Store, tasks: seq<Task>)
    ensures LoadTasks(PersistTasks(store, tasks)) == Success(tasks)
    ensures StartTasks(PersistTasks(store, tasks)) == Success((tasks, PersistTasks(store, tasks)))
  {
  }
}
