/** The session holder (`AuthProvider`): the signed-in user or none, kept
    together with the local storage it writes. The profile lookup of the
    start-up effect (`getProfile`) is a parameter: it returns the profile
    or `None` when the request is rejected. */
module Session {
  import opened Options
  import opened Storage

  datatype Session = Session(user: Option<User>, store: Store)

  /** `Partial<User>`: every field may be supplied or left out. */
  datatype UserPatch = UserPatch(
    id: Option<string>,
    username: Option<string>,
    email: Option<string>,
    avatar: Option<string>,
    firstName: Option<string>,
    lastName: Option<string>)

  /** `isAuthenticated: !!user`. */
  predicate IsAuthenticated(s: Session) {
    s.user.Some?
  }

  /** The stored "user" snapshot is the in-memory user. */
  predicate SnapshotInSync(s: Session) {
    s.store.user == s.user
  }

  /** `{ ...user, ...patch }`: supplied fields win. */
  function ApplyUserPatch(u: User, p: UserPatch): (r: User)
    ensures r.id == p.id.GetOr(u.id) && r.username == p.username.GetOr(u.username)
    ensures r.email == p.email.GetOr(u.email) && r.avatar == p.avatar.GetOr(u.avatar)
    ensures r.firstName == (if p.firstName.Some? then p.firstName else u.firstName)
    ensures r.lastName == (if p.lastName.Some? then p.lastName else u.lastName)
  {
    User(p.id.GetOr(u.id), p.username.GetOr(u.username), p.email.GetOr(u.email),
         p.avatar.GetOr(u.avatar),
         if p.firstName.Some? then p.firstName else u.firstName,
         if p.lastName.Some? then p.lastName else u.lastName)
  }

  /** `login(userData)`: remember the user and write the snapshot. The
      token slot is written by the caller, not here. */
  function Login(s: Session, u: User): (r: Session)
    ensures IsAuthenticated(r) && r.user == Some(u) && SnapshotInSync(r)
    ensures r.store.token == s.store.token && r.store.tasks == s.store.tasks
  {
    Session(Some(u), s.store.(user := Some(u)))
  }

  /** `logout()`: forget the user and remove both the token and the
      snapshot. */
  function Logout(s: Session): (r: Session)
    ensures !IsAuthenticated(r) && SnapshotInSync(r)
    ensures r.store.token.None? && r.store.user.None?
    ensures r.store.tasks == s.store.tasks
  {
    Session(None, s.store.(token := None, user := None))
  }

  /** `updateAvatar(url)`: a no-op without a user; otherwise replace the
      avatar and rewrite the snapshot. */
  function UpdateAvatar(s: Session, url: string): (r: Session)
    ensures !IsAuthenticated(s) ==> r == s
    ensures IsAuthenticated(s) ==>
              && r.user == Some(s.user.value.(avatar := url))
              && SnapshotInSync(r)
              && r.store.token == s.store.token
    ensures r.store.tasks == s.store.tasks
  {
    match s.user
    case None => s
    case Some(u) =>
      var v := u.(avatar := url);
      Session(Some(v), s.store.(user := Some(v)))
  }

  /** `updateUser(patch)`: a no-op without a user; otherwise merge the
      patch into the user and rewrite the snapshot. */
  function UpdateUser(s: Session, p: UserPatch): (r: Session)
    ensures !IsAuthenticated(s) ==> r == s
    ensures IsAuthenticated(s) ==>
              && r.user == Some(ApplyUserPatch(s.user.value, p))
              && SnapshotInSync(r)
              && r.store.token == s.store.token
    ensures r.store.tasks == s.store.tasks
  {
    match s.user
    case None => s
    case Some(u) =>
      var v := ApplyUserPatch(u, p);
      Session(Some(v), s.store.(user := Some(v)))
  }

  /** The start-up effect. A truthy token is exchanged for a profile; on
      success the profile becomes the user and the snapshot, on failure
      the user, the token and the snapshot are all cleared. Without a
      token the user and the snapshot are cleared. */
  function Bootstrap(s: Session, getProfile: string -> Option<User>): (r: Session)
    ensures SnapshotInSync(r)
    ensures r.store.tasks == s.store.tasks
    ensures IsAuthenticated(r) <==> Truthy(s.store.token) && getProfile(s.store.token.value).Some?
    ensures IsAuthenticated(r) ==> r.user == getProfile(s.store.token.value)
    ensures r.store.token == (if Truthy(s.store.token) && getProfile(s.store.token.value).None?
                              then None else s.store.token)
  {
    if Truthy(s.store.token) then
      match getProfile(s.store.token.value)
      case Some(profile) => Session(Some(profile), s.store.(user := Some(profile)))
      case None => Session(None, s.store.(token := None, user := None))
    else
      Session(None, s.store.(user := None))
  }

  /** Without a token the profile service is never consulted: the outcome
      is the same whatever it would answer, and the session is empty. */
  lemma BootstrapWithoutToken(s: Session, f: string -> Option<User>, g: string -> Option<User>)
    requires !Truthy(s.store.token)
    ensures Bootstrap(s, f) == Bootstrap(s, g)
    ensures !IsAuthenticated(Bootstrap(s, f))
  {
  }

  /** Signing in and straight out again leaves no user, no token and no
      snapshot, whatever was stored before. */
  lemma LoginThenLogout(s: Session, u: User)
    ensures var r := Logout(Login(s, u));
            !IsAuthenticated(r) && r.store.token.None? && r.store.user.None?
            && r.store.tasks == s.store.tasks
  {
  }

  /** Every session operation keeps the snapshot in step with the user
      once they are in step, and none of them touches the task list. */
  lemma SessionKeepsSnapshotAndTasks(s: Session, u: User, url: string, p: UserPatch,
                                     getProfile: string -> Option<User>, ts: seq<TaskStore.Task>)
    requires SnapshotInSync(s) && Mirrors(s.store, ts)
    ensures SnapshotInSync(UpdateAvatar(s, url)) && Mirrors(UpdateAvatar(s, url).store, ts)
    ensures SnapshotInSync(UpdateUser(s, p)) && Mirrors(UpdateUser(s, p).store, ts)
    ensures Mirrors(Login(s, u).store, ts) && Mirrors(Logout(s).store, ts)
    ensures Mirrors(Bootstrap(s, getProfile).store, ts)
  {
  }

  /** Profile edits never sign anyone in or out. */
  lemma UpdatesKeepAuthentication(s: Session, url: string, p: UserPatch)
    ensures IsAuthenticated(UpdateAvatar(s, url)) == IsAuthenticated(s)
    ensures IsAuthenticated(UpdateUser(s, p)) == IsAuthenticated(s)
  {
  }
}
