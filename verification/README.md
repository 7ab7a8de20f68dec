# SnapDone task store, views and auth decisions in Dafny

This project models the core of SnapDone, a small task manager with a React
client and an Express server:

- **Task store.** The client's task store (`TaskProvider`) is a list of tasks. Each task has a
  completion flag and a soft-deletion ("trash") flag. The store offers
  `addTask`, `updateTask` (including the rule that completing an
  already-completed task forces it into the trash), `restoreTask` and
  `deleteTask`, plus loading from and persisting to local storage.
- **Session holder.** The client's session holder (`AuthProvider`) tracks the signed-in user or
  none, together with the "token" and "user" storage slots it writes. It covers
  `login`, `logout`, `updateAvatar`, `updateUser` and the start-up
  bootstrap.
- **Page views and actions.** The pages derive views from that state and act on it:
  - the dashboard's active view, with a case-insensitive title search, the 20-word cut of
    descriptions, and the complete/edit/delete payloads;
  - the trash and completed views and their actions;
  - the add-task form's blank-title and sign-in guards;
  - the profile and password form rules;
  - the sidebar's page-name-to-path mapping, its highlight, and the avatar initial and
    capitalised user name.
- **Server auth decisions.** The server's `register`, `login` and `resetPassword` decisions
  (`auth.controller.ts`). The user table is a list in insertion order, so
  `findFirst` is the first matching row.

Everything is a pure function over immutable datatypes. The modules are:

| module | file | contents |
|---|---|---|
| `Options` | options.dfy | `Option`, `Result`, JavaScript truthiness of an optional string |
| `Seqs` | seqs.dfy | `Filter` (`Array.prototype.filter`), `FirstIndex` |
| `Text` | text.dfy | `trim`, ASCII `toLowerCase`/`toUpperCase`, `includes`, `split`/`join`, `indexOf`, first-occurrence `replace` |
| `TaskStore` | task_store.dfy | the task list and its four operations |
| `Storage` | storage.dfy | the three storage slots, task loading and persisting |
| `Session` | session.dfy | the session holder |
| `HomePage`, `TrashPage`, `CompletedPage`, `AddTasksPage`, `ProfilePage`, `Layout` | one file each | the page rules |
| `AuthController` | auth_controller.dfy | the server decisions |
| `TaskJourneys` | task_journeys.dfy | how page actions move tasks between views |

Collaborators that the code calls but that are not part of it become parameters:
- the clock (`new Date().toISOString()`) is `now`;
- the id source (`Date.now()`) is `id`;
- the profile request is `getProfile`;
- the password scorer (`zxcvbn(...).score`) is `score`;
- `bcrypt.hash` is `hash` and `bcrypt.compare` is `compare`;
- `jwt.sign` is `sign`.

Ids are not assumed unique. Every statement about "the task with this id" covers all tasks that carry it (with one simplification of the clock, under "Left out").

Behaviours of the code worth noting:

- A "tasks" slot holding text that is not a task list is not silently replaced
  by an empty list. `JSON.parse` throws, so `Storage.LoadTasks` returns a
  `Failure`. Only a missing slot or the empty string give the empty list.
- Bootstrap without a token also removes the "user" snapshot, not only the
  in-memory user (client/src/context/AuthContext.tsx:86-89).
- A lookup of an absent id is a silent no-op (`map`/`filter` change nothing).
  It is never a NotFound error.
- The router (client/src/App.tsx:20-26) has no route for "/completed-tasks"
  or "/profile". The Completed Tasks and Profile entries of
  `Layout.SidebarNavigation`, and the navigation after "isComplete"
  (client/src/pages/Home.tsx:143), lead to no page. The model states the
  paths and not what is rendered there.
- The session holder imports `getProfile` from the user service
  (client/src/context/AuthContext.tsx:3), which exports only
  `updateUserProfile` (client/src/services/userService.ts:1). The profile
  request is a parameter, so the model does not depend on its definition.

## Model

| member | source | states |
|---|---|---|
| Seqs.Filter | client/src/pages/Trash.tsx:18 | `filter` keeps exactly the elements satisfying the predicate: every kept element is in the input and passes, every passing input element is kept, and the result is no longer than the input |
| Seqs.FilterConcat | client/src/context/AuthContext.tsx:191 | filtering distributes over concatenation, so the kept elements stay in their relative order |
| Seqs.FirstIndex | server/src/controllers/auth.controller.ts:146 | the index returned is of a matching row with no matching row before it; no index exactly when no row matches |
| Text.TrimStart | client/src/pages/AddTasks.tsx:30 | the result is a suffix of the input, everything cut off is whitespace, and the result does not start with whitespace |
| Text.TrimEnd | client/src/pages/AddTasks.tsx:30 | the result is a prefix of the input, everything cut off is whitespace, and the result does not end with whitespace |
| Text.BlankIffAllWhitespace | client/src/pages/AddTasks.tsx:30 | `!title.trim()` holds exactly when every character of the title is whitespace |
| Text.IsBlank | client/src/pages/AddTasks.tsx:30 | definition: `!title.trim()`, the trimmed text is empty (characterised by `Text.BlankIffAllWhitespace`) |
| Text.Lower | client/src/pages/Home.tsx:77 | `toLowerCase` keeps the length and lower-cases each character in place |
| Text.Contains | client/src/pages/Home.tsx:77 | definition: `includes`, the needle occurs at some position of the text |
| Text.ContainsEmpty | client/src/pages/Home.tsx:77 | every string `includes` the empty string |
| Text.Split | client/src/pages/Home.tsx:103 | `split(" ")` yields one piece more than there are spaces, and no piece contains a space |
| Text.Join | client/src/pages/Home.tsx:105 | definition: `join(" ")`, the pieces with one separator between neighbours; `Text.JoinSplit` shows it inverts `split` |
| Text.JoinSplit | client/src/pages/Home.tsx:105 | joining the pieces of a split with the same separator gives back the original text |
| Text.SplitPrefix | client/src/pages/Home.tsx:105 | the first n pieces joined are the text before the n-th separator, which sits right after them |
| Text.IndexOf | client/src/components/Layout.tsx:56 | the index is of the first occurrence, or the length when there is none |
| Text.ReplaceFirst | client/src/components/Layout.tsx:56 | `replace` with a string pattern keeps the length, puts the replacement at the first occurrence and keeps every other position |
| Text.ReplaceFirstAfter | client/src/components/Layout.tsx:56 | in `a + c + b` with no `c` in `a`, the replaced occurrence is the one after `a` |
| Text.LowerKeepsIndexOf | client/src/components/Layout.tsx:56 | lower-casing does not move the first space, so lower-casing before replacing targets the same position |
| TaskStore.MapMatching | client/src/context/AuthContext.tsx:165-178 | the `map` keeps length and order, rewrites exactly the tasks carrying the id, and is the identity when none does |
| TaskStore.AddTask | client/src/context/AuthContext.tsx:143-161 | exactly one task is appended after an unchanged prefix; it is active, carries the given title, description and id, and has `dateCreated == lastUpdated == now` |
| TaskStore.Merge | client/src/context/AuthContext.tsx:166-176 | supplied fields win; `lastUpdated` is always the new time even when supplied; completing an already-completed task sets `isDeleted` whatever was supplied; otherwise `isDeleted` is the supplied value or the old one |
| TaskStore.UpdateTask | client/src/context/AuthContext.tsx:163-180 | length and order are kept; tasks with another id are untouched; matching tasks are merged; an absent id changes nothing |
| TaskStore.RestoreTask | client/src/context/AuthContext.tsx:182-188 | matching tasks leave the trash with no other field changed (not `lastUpdated`, not `isCompleted`); other tasks are untouched; an absent id changes nothing |
| TaskStore.DeleteTask | client/src/context/AuthContext.tsx:190-192 | the result holds exactly the tasks of the input with another id, and no task with the id |
| TaskStore.DeleteKeepsOrder | client/src/context/AuthContext.tsx:191 | deleting commutes with splitting the list anywhere, so survivors keep their order |
| TaskStore.DeleteAbsent | client/src/context/AuthContext.tsx:191 | deleting an id no task carries changes nothing |
| TaskStore.DeleteIdempotent | client/src/context/AuthContext.tsx:190-192 | deleting twice equals deleting once |
| TaskStore.NoOpsAfterDelete | client/src/context/AuthContext.tsx:163-192 | after a delete, updating or restoring that id changes nothing |
| TaskStore.RestoreIdempotent | client/src/context/AuthContext.tsx:182-188 | restoring twice equals restoring once |
| TaskStore.UpdateIdempotent | client/src/context/AuthContext.tsx:163-180 | a patch that keeps the id and does not complete gives the same list when applied twice at the same instant |
| TaskStore.CompleteTwiceTrashes | client/src/context/AuthContext.tsx:171-175 | after two completing updates, every task with the id is completed and in the trash, with the second timestamp |
| Storage.LoadTasks | client/src/context/AuthContext.tsx:134-137 | a missing or empty slot loads as the empty list and a stored list loads as itself; a failure happens exactly for non-empty text that is not a list |
| Storage.PersistTasks | client/src/context/AuthContext.tsx:139-141 | the whole list is written to the "tasks" slot and the other slots keep their values |
| Storage.StartTasks | client/src/context/AuthContext.tsx:134-141 | after mounting, the slot mirrors the loaded list and the other slots are untouched; mounting fails exactly when loading does |
| Storage.PersistThenLoad | client/src/context/AuthContext.tsx:134-141 | loading what was persisted gives the same list, and remounting on it changes nothing |
| Session.IsAuthenticated | client/src/context/AuthContext.tsx:125 | definition: `isAuthenticated: !!user`, signed in exactly when a user is held |
| Session.ApplyUserPatch | client/src/context/AuthContext.tsx:113 | `{ ...user, ...patch }`: each supplied field wins, each missing one keeps its value |
| Session.Login | client/src/context/AuthContext.tsx:92-95 | the user is set and stored as the snapshot; the token and task slots keep their values |
| Session.Logout | client/src/context/AuthContext.tsx:97-101 | no user remains, the token and user slots are removed, and the task slot is kept |
| Session.UpdateAvatar | client/src/context/AuthContext.tsx:103-109 | a no-op without a user; otherwise only the avatar changes and the snapshot is rewritten to match |
| Session.UpdateUser | client/src/context/AuthContext.tsx:111-117 | a no-op without a user; otherwise the patch is merged and the snapshot is rewritten to match |
| Session.Bootstrap | client/src/context/AuthContext.tsx:73-90 | the session ends signed in exactly when a truthy token's profile request succeeds, and then holds that profile; a failed request also removes the token; the snapshot always matches the user |
| Session.BootstrapWithoutToken | client/src/context/AuthContext.tsx:86-89 | without a token the profile service's answer does not matter and nobody is signed in |
| Session.LoginThenLogout | client/src/context/AuthContext.tsx:92-101 | login then logout leaves no user, no token and no snapshot, and the tasks as they were |
| Session.SessionKeepsSnapshotAndTasks | client/src/context/AuthContext.tsx:73-117 | every session operation keeps the snapshot in step with the user, and none of them touches the persisted task list |
| Session.UpdatesKeepAuthentication | client/src/context/AuthContext.tsx:103-125 | profile edits never change `isAuthenticated` |
| HomePage.ActiveView | client/src/pages/Home.tsx:73-89 | the dashboard lists exactly the tasks that are neither deleted nor completed and whose lower-cased title includes the lower-cased search |
| HomePage.ShowsNoTasksMessage | client/src/pages/Home.tsx:73-81 | "No tasks yet." appears exactly when no task is active and matches the search |
| HomePage.EmptySearchShowsAllActive | client/src/pages/Home.tsx:77 | with an empty search the view is the plain active filter |
| HomePage.SearchIgnoresCase | client/src/pages/Home.tsx:77 | two searches that agree after lower-casing give the same view |
| HomePage.DescriptionText | client/src/pages/Home.tsx:102-105 | the description is shown in full when expanded or when it has at most 20 pieces; otherwise what is shown is the text before the 20th space followed by "..." |
| HomePage.ShowsReadMore | client/src/pages/Home.tsx:106-115 | "Read more" appears exactly when the shown text differs from the description |
| HomePage.Complete | client/src/pages/Home.tsx:142 | "isComplete" sets the completion flag and the new time on tasks with that id, sends them to the trash when they were already completed, and changes nothing else |
| HomePage.SaveEdit | client/src/pages/Home.tsx:203-207 | with no task open or a blank title nothing changes; otherwise tasks with that id get the new title and description and the new time, and nothing else changes |
| HomePage.ConfirmDelete | client/src/pages/Home.tsx:229-230 | with no task chosen nothing changes; otherwise tasks with that id gain the trash flag and the new time, and nothing else changes |
| TrashPage.TrashView | client/src/pages/Trash.tsx:18 | the trash lists exactly the deleted tasks, completed or not |
| TrashPage.ShowsEmptyMessage | client/src/pages/Trash.tsx:34-37 | "No deleted tasks." appears exactly when no task is deleted |
| TrashPage.Restore | client/src/pages/Trash.tsx:52 | "Restore" clears only the trash flag of the tasks with that id and keeps every other task |
| TrashPage.DeletePermanently | client/src/pages/Trash.tsx:63 | "Delete Permanently" keeps exactly the tasks with another id and no task with that id |
| CompletedPage.CompletedView | client/src/pages/CompletedTasks.tsx:20 | the page lists exactly the completed tasks, deleted or not |
| CompletedPage.ShowsEmptyMessage | client/src/pages/CompletedTasks.tsx:15-18 | "No completed tasks yet." appears exactly when no task is completed |
| CompletedPage.MarkIncomplete | client/src/pages/CompletedTasks.tsx:38 | "Incomplete" clears the completion flag and renews the time of tasks with that id, keeps their trash flag, and changes nothing else |
| AddTasksPage.Submit | client/src/pages/AddTasks.tsx:23-36 | signed out or with a blank title nothing changes; otherwise exactly one active task is appended with the title and description as typed, and the form is cleared |
| AddTasksPage.WhitespaceTitleAddsNothing | client/src/pages/AddTasks.tsx:30 | a title made only of whitespace adds no task |
| ProfilePage.FormOf | client/src/pages/Profile.tsx:68-74 | the form takes each user field, with "" for a missing first or last name |
| ProfilePage.FormPatch | client/src/pages/Profile.tsx:61 | definition: `updateUser(form)` sends the form's username, email, avatar, first and last name, each as a present field, and no id |
| ProfilePage.HandleSave | client/src/pages/Profile.tsx:56-65 | an empty username or email (untrimmed) sets the error and changes nothing else; otherwise all five fields are merged into the user, the snapshot follows, the feedback is set and the error cleared |
| ProfilePage.HandleCancel | client/src/pages/Profile.tsx:67-78 | cancel refills the form from the user, leaves edit mode and clears both messages |
| ProfilePage.SaveThenCancel | client/src/pages/Profile.tsx:56-78 | cancelling right after a successful save shows exactly the saved form |
| ProfilePage.HandlePasswordChange | client/src/pages/Profile.tsx:80-93 | an empty field is reported first and a mismatch second; the change passes exactly when all fields are filled and new equals confirm, and then the three fields are cleared |
| ProfilePage.PasswordChangeClearsForm | client/src/pages/Profile.tsx:80-93 | after a passing change the form is empty, so an immediate second attempt is refused for missing fields |
| Layout.NavPath | client/src/components/Layout.tsx:52-58 | "Profile" goes to "/profile"; any other name to a "/"-prefixed path one character longer than the name |
| Layout.NavPathChars | client/src/components/Layout.tsx:56 | character by character, the path is the lower-cased name with its first space, and only that one, turned into "-" |
| Layout.NavPathIs | client/src/components/Layout.tsx:56 | a name's path is any text that agrees with that character-by-character description |
| Layout.OnlyFirstSpaceReplaced | client/src/components/Layout.tsx:56 | an example, not a general property: "My Old Tasks" goes to "/my-old tasks", keeping its second space |
| Layout.SidebarNavigation | client/src/components/Layout.tsx:130-190 | the six sidebar entries go to "/dashboard", "/add-tasks", "/completed-tasks", "/trash", "/profile" and "/settings" |
| Layout.IsHighlighted | client/src/components/Layout.tsx:61 | definition: `currentPage === pageName`, an entry is highlighted exactly when its name is the current page |
| Layout.OneHighlightedEntry | client/src/components/Layout.tsx:60-61 | exactly one sidebar entry is highlighted on a sidebar page, and none on any other page |
| Layout.AvatarInitial | client/src/components/Layout.tsx:113-114 | the fallback is the first character of a non-empty first name, else the upper-cased first character of the username, else "" |
| Layout.DisplayUsername | client/src/components/Layout.tsx:120-122 | the shown name is the username with only its first character upper-cased, or "" |
| Layout.AvatarMatchesDisplayedName | client/src/components/Layout.tsx:113-122 | without a first name, the avatar shows the first character of the name shown under it |
| Layout.DisplayUsernameSameIgnoringCase | client/src/components/Layout.tsx:120-122 | capitalising changes the name only in letter case |
| AuthController.Public | server/src/controllers/auth.controller.ts:53-60 | definition: the user object of a response carries id, username, email, avatar and the two names of the row, and no password |
| AuthController.NewAccount | server/src/controllers/auth.controller.ts:34-43 | the stored row has the given username, email and hash; a falsy avatar becomes "" and a falsy first or last name becomes null |
| AuthController.Register | server/src/controllers/auth.controller.ts:9-67 | a weak password is refused first, then a taken email or username; the request succeeds exactly when neither applies, and then the answer is 201 "User created successfully", one row is appended and the user and token returned |
| AuthController.WeakPasswordIgnoresTable | server/src/controllers/auth.controller.ts:13-20 | a weak password gets the same answer whatever the table holds, and the table is not written |
| AuthController.RegisterKeepsAccountsUnique | server/src/controllers/auth.controller.ts:22-43 | registration never makes two rows share an email or a username |
| AuthController.Find | server/src/controllers/auth.controller.ts:75-77 | `findFirst` with one `where` clause (a login lookup, or register's email-or-username `OR`): a matching row with no match before it, and nothing exactly when no row matches |
| AuthController.OrElse | server/src/controllers/auth.controller.ts:79-83 | definition: one step of the chain, `if (!user && field)`, asks its query only while nothing is found and only when its input is truthy |
| AuthController.Lookup | server/src/controllers/auth.controller.ts:73-94 | the chain as written: a found row is in the table; a hit of email-as-email is the answer; nothing is found exactly when each of the four lookups whose input is truthy finds nothing |
| AuthController.FirstHit | server/src/controllers/auth.controller.ts:73-94 | the reference "first hit wins": the answer is what the first query that finds anything finds, it matches one of the queries, and nothing is found exactly when no row matches any query |
| AuthController.FirstHitAppend | server/src/controllers/auth.controller.ts:79-94 | later queries are consulted only when the earlier ones found nothing |
| AuthController.FirstHitStep | server/src/controllers/auth.controller.ts:79-94 | adding one guarded step to the chain is taking that step after the earlier answer |
| AuthController.LookupIsFirstHit | server/src/controllers/auth.controller.ts:73-94 | the login chain equals "first hit wins" over email-as-email, username-as-username, email-as-username, username-as-email, each step asked only for truthy input |
| AuthController.Login | server/src/controllers/auth.controller.ts:69-127 | success exactly when the lookup finds a row whose hash matches; an unknown user and a wrong password get the same 400 "Invalid credentials"; success is "Login successful" with the found user and a token |
| AuthController.LoginPayload | client/src/pages/Login.tsx:38-40 | the identifier is sent as exactly one of `email` and `username`, as `email` exactly when it contains "@" |
| AuthController.PayloadQueries | client/src/pages/Login.tsx:38-40 | the queries the chain runs for a typed identifier: email then username with "@", username then email without, none for an empty one |
| AuthController.LoginFormLookup | client/src/pages/Login.tsx:38-40 | an identifier with "@" is tried as an email and then as a username, any other one the other way round, and an empty one nowhere |
| AuthController.ResetPassword | server/src/controllers/auth.controller.ts:129-160 | a missing field is reported before a mismatch and a mismatch before a weak password; an unknown email is a 404; the answer is 200 "Password reset successfully." exactly when all fields are present, match, are strong enough and the email is known; the table changes only then, and only one row with that email gets the new hash |
| AuthController.ResetChangesOnlyThatAccount | server/src/controllers/auth.controller.ts:146-155 | with unique emails, a reset changes the password of the one account with that email and keeps the emails unique |
| TaskJourneys.CompleteMovesToCompleted | client/src/pages/Home.tsx:142 | "isComplete" moves an active task onto the completed page and off the dashboard, not into the trash |
| TaskJourneys.CompleteTwiceMovesToTrash | client/src/pages/Home.tsx:142 | completing twice puts the task in the trash while it stays on the completed page |
| TaskJourneys.ConfirmDeleteMovesToTrash | client/src/pages/Home.tsx:230 | a confirmed delete moves the task from the dashboard into the trash and keeps its completion flag |
| TaskJourneys.RestoreLeavesTrash | client/src/pages/Trash.tsx:52 | "Restore" takes the task out of the trash back to the page its completion flag selects |
| TaskJourneys.PurgeLeavesEveryView | client/src/pages/Trash.tsx:63 | "Delete Permanently" removes the task from all three views |
| TaskJourneys.IncompleteLeavesCompleted | client/src/pages/CompletedTasks.tsx:20-38 | "Incomplete" takes the task off the completed page, keeps its trash flag, and puts it back on the dashboard unless it is in the trash |
| TaskJourneys.AddedTaskIsActive | client/src/pages/AddTasks.tsx:31 | a task added from the form shows on the dashboard and on neither other page |
| TaskJourneys.AddThenPurge | client/src/context/AuthContext.tsx:143-192 | adding under a fresh id and then deleting that id gives back the original list |
| TaskJourneys.Lifecycle | client/src/context/AuthContext.tsx:143-192 | add, complete, complete again, restore, purge: the task is on the dashboard, then only on the completed page, then also in the trash, then off the trash (which is back to what it was), and finally the list is the original |

## Left out

- Rendering, styling, dialogs and the `setTimeout` banners: only the filters,
  guards and payloads are modelled. The navigations that follow an action
  (to "/completed-tasks" after "isComplete", to "/login" from a page that is
  not signed in) are not modelled either. The dashboard's and the profile
  page's signed-out renderings are display only. The add-task page's
  sign-in guard is modelled in `AddTasksPage.Submit`.
- JSON. Storage holds documents, not their text. The only parse outcome
  modelled is "not a task list". A JSON value of the wrong shape (for
  example a number) is not distinguished.
- Storage keys other than "token", "user" and "tasks". Writing the
  token is the login page's job and is outside the session holder.
- Timestamps are opaque text, so nothing says that `lastUpdated` moves
  forward. Ids come from a parameter and are not assumed unique: two adds in
  one millisecond would share an id, and every lemma covers all tasks that
  share one.
- TaskStore.UpdateTask: the clock is read once per call, so every task
  carrying the id gets the same `lastUpdated`. The code reads
  `new Date().toISOString()` inside the `map` callback
  (client/src/context/AuthContext.tsx:170), once per matching task, so tasks
  sharing an id may get different stamps. For a shared id, the equal stamps
  stated by `TaskStore.UpdateTask`, `TaskStore.CompleteTwiceTrashes` and the
  page actions built on them (`HomePage.Complete`, `HomePage.SaveEdit`,
  `HomePage.ConfirmDelete`, `CompletedPage.MarkIncomplete`) hold of this
  model only. With unique ids the two agree.
- Concurrency: the asynchronous profile request and React's state batching.
  In particular, a bootstrap that resolves after a logout is not modelled.
  Operations are sequential steps.
- The "items in trash will be deleted after 30 days" text: nothing in the
  code enforces it.
- `toLowerCase`/`toUpperCase` act on ASCII letters only. Characters are
  Unicode scalar values, while JavaScript strings are UTF-16 code units.
  They differ outside the Basic Multilingual Plane, and in unpaired
  surrogates, which a JavaScript string can hold and a Unicode scalar value
  cannot.
- `Text.Trim` is defined but carries no contract of its own. Its meaning is
  stated through `Text.BlankIffAllWhitespace`.
- Profile's `handleChange` and avatar upload only edit form fields. The
  Cloudinary upload, `fetch`, axios and `getProfile` are network calls and
  are parameters or out of scope.
- Server side:
  - the `suggestions` and `warning` fields of the weak-password response;
  - request fields that are absent, in `register` and `login`. In `login`
    the password is a string: an absent one, which makes `bcrypt.compare`
    throw and the catch answer 500, cannot be expressed;
  - the 500 answer to a failing database call;
  - the token's expiry;
  - `findUnique` on email, which relies on a unique database index. It is
    modelled as the first row with that email, and the uniqueness is an
    explicit precondition where a lemma needs it.
- Layout.NavPath: its own contract states only the "/profile" case and the
  path's shape. The full character-by-character meaning is the separate
  lemma `Layout.NavPathChars`.
