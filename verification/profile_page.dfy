/** The profile page: an edit form for the five profile fields, and a
    password form that is only validated (no request is made). */
module ProfilePage {
  import opened Options
  import opened Storage
  import opened Session

  datatype ProfileForm = ProfileForm(
    firstName: string, lastName: string, username: string, email: string, avatar: string)

  datatype ProfileView = ProfileView(
    form: ProfileForm, editMode: bool, feedback: Option<string>, error: Option<string>)

  datatype PasswordForm = PasswordForm(currentPw: string, newPw: string, confirmPw: string)

  datatype PasswordView = PasswordView(
    pw: PasswordForm, feedback: Option<string>, error: Option<string>)

  const RequiredFieldsError := "Username and email are required."
  const SavedFeedback := "Profile updated successfully."
  const PasswordFieldsError := "All password fields are required."
  const PasswordMismatchError := "New passwords do not match."
  const PasswordChangedFeedback := "Password changed (simulated, no backend). Reset fields."

  /** The form filled from a user: `user.field || ""` for each field. */
  function FormOf(u: User): (r: ProfileForm)
    ensures r.username == u.username && r.email == u.email && r.avatar == u.avatar
    ensures u.firstName.None? ==> r.firstName == ""
    ensures u.firstName.Some? ==> r.firstName == u.firstName.value
    ensures u.lastName.None? ==> r.lastName == ""
    ensures u.lastName.Some? ==> r.lastName == u.lastName.value
  {
    ProfileForm(u.firstName.GetOr(""), u.lastName.GetOr(""), u.username, u.email, u.avatar)
  }

  /** `updateUser(form)`: all five fields are sent, empty ones included. */
  function FormPatch(f: ProfileForm): UserPatch {
    UserPatch(None, Some(f.username), Some(f.email), Some(f.avatar), Some(f.firstName), Some(f.lastName))
  }

  /** "Save". An empty username or email (checked without trimming) sets
      the error and changes nothing else; otherwise the form is merged
      into the session user, the feedback is set, the error cleared and
      edit mode left. */
  function HandleSave(v: ProfileView, s: Session): (r: (ProfileView, Session))
    ensures v.form.username == "" || v.form.email == "" ==>
              r == (v.(error := Some(RequiredFieldsError)), s)
    ensures v.form.username != "" && v.form.email != "" ==>
              && r.0 == v.(feedback := Some(SavedFeedback), error := None, editMode := false)
              && r.1.store.token == s.store.token && r.1.store.tasks == s.store.tasks
              && (s.user.None? ==> r.1 == s)
              && (s.user.Some? ==>
                    && SnapshotInSync(r.1)
                    && r.1.user == Some(s.user.value.(firstName := Some(v.form.firstName),
                                                      lastName := Some(v.form.lastName),
                                                      username := v.form.username,
                                                      email := v.form.email,
                                                      avatar := v.form.avatar)))
  {
    if v.form.username == "" || v.form.email == "" then
      (v.(error := Some(RequiredFieldsError)), s)
    else
      (v.(feedback := Some(SavedFeedback), error := None, editMode := false),
       UpdateUser(s, FormPatch(v.form)))
  }

  /** "Cancel": refill the form from the user, leave edit mode and clear
      both messages. */
  function HandleCancel(v: ProfileView, u: User): (r: ProfileView)
    ensures r.form == FormOf(u)
    ensures !r.editMode && r.error.None? && r.feedback.None?
  {
    ProfileView(FormOf(u), false, None, None)
  }

  /** A saved form survives a later "Cancel": cancelling right after a
      successful save refills the form with exactly what was saved. */
  lemma SaveThenCancel(v: ProfileView, s: Session)
    requires IsAuthenticated(s)
    requires v.form.username != "" && v.form.email != ""
    ensures var (v', s') := HandleSave(v, s);
            s'.user.Some? && HandleCancel(v', s'.user.value).form == v.form
  {
  }

  /** "Change Password", validated in this order: any empty field, then
      a mismatch; a passing change clears all three fields and touches
      neither the session nor the server. */
  function HandlePasswordChange(v: PasswordView): (r: PasswordView)
    ensures v.pw.currentPw == "" || v.pw.newPw == "" || v.pw.confirmPw == "" ==>
              r == v.(error := Some(PasswordFieldsError))
    ensures v.pw.currentPw != "" && v.pw.newPw != "" && v.pw.confirmPw != ""
            && v.pw.newPw != v.pw.confirmPw ==>
              r == v.(error := Some(PasswordMismatchError))
    ensures r.error.None? <==>
              v.pw.currentPw != "" && v.pw.newPw != "" && v.pw.confirmPw == v.pw.newPw
    ensures r.error.None? ==>
              r == PasswordView(PasswordForm("", "", ""), Some(PasswordChangedFeedback), None)
  {
    if v.pw.currentPw == "" || v.pw.newPw == "" || v.pw.confirmPw == "" then
      v.(error := Some(PasswordFieldsError))
    else if v.pw.newPw != v.pw.confirmPw then
      v.(error := Some(PasswordMismatchError))
    else
      PasswordView(PasswordForm("", "", ""), Some(PasswordChangedFeedback), None)
  }

  /** A passing change empties the form, so pressing the button again at
      once is refused for missing fields. */
  lemma PasswordChangeClearsForm(v: PasswordView)
    requires HandlePasswordChange(v).error.None?
    ensures HandlePasswordChange(HandlePasswordChange(v)).error == Some(PasswordFieldsError)
  {
  }
}
