/** The profile page's editing state: the form defaults taken from the
    loaded user, the unsaved-changes flag, the edit toggle with its
    confirmation, the profile and password updates, and which view the page
    renders. What the hooks and the browser supply (the user, the update
    result, the answer to the confirmation, the error thrown) is input. */
module ProfilePage {
  import opened Wrappers
  import opened Js

  /** The loaded user's text fields; a missing key is an absent field. */
  datatype User = User(fields: map<string, string>)

  /** The five fields of the profile form. */
  datatype ProfileForm = ProfileForm(name: string, phone: string, department: string,
                                     specialization: string, experience: string)

  datatype PasswordForm = PasswordForm(currentPassword: string, newPassword: string, confirmPassword: string)

  const EmptyPasswordForm := PasswordForm("", "", "")

  /** `user?.<key> || ''`. */
  function DefaultField(user: Option<User>, key: string): (r: string)
    ensures user.Some? && key in user.value.fields ==> r == user.value.fields[key]
    ensures user.None? || key !in user.value.fields ==> r == ""
  {
    if user.Some? && key in user.value.fields && user.value.fields[key] != "" then user.value.fields[key] else ""
  }

  /** `profileDefaultValues`. */
  function Defaults(user: Option<User>): ProfileForm {
    ProfileForm(DefaultField(user, "name"), DefaultField(user, "phone"), DefaultField(user, "department"),
                DefaultField(user, "specialization"), DefaultField(user, "experience"))
  }

  /** `Object.keys(watched).some(key => watched[key] !== defaults[key])`. */
  predicate HasChanges(watched: ProfileForm, defaults: ProfileForm) {
    watched.name != defaults.name || watched.phone != defaults.phone ||
    watched.department != defaults.department || watched.specialization != defaults.specialization ||
    watched.experience != defaults.experience
  }

  /** Comparing the five fields one by one is comparing the forms. */
  lemma HasChangesIsInequality(watched: ProfileForm, defaults: ProfileForm)
    ensures HasChanges(watched, defaults) <==> watched != defaults
  {
  }

  /** The thrown value as far as the handler reads it:
      `error?.response?.data?.message` and `error?.message`. */
  datatype ThrownError = ThrownError(responseMessage: Option<string>, message: Option<string>)

  /** The message shown when the password update fails: the server's, else
      the error's own, else the fixed text. */
  function PasswordErrorMessage(e: ThrownError): (r: string)
    ensures r != ""
    ensures e.responseMessage.Some? && e.responseMessage.value != "" ==> r == e.responseMessage.value
    ensures (e.responseMessage.None? || e.responseMessage.value == "") && e.message.Some? && e.message.value != "" ==>
              r == e.message.value
    ensures (e.responseMessage.None? || e.responseMessage.value == "") && (e.message.None? || e.message.value == "") ==>
              r == "Failed to update password. Please try again."
  {
    if e.responseMessage.Some? && e.responseMessage.value != "" then e.responseMessage.value
    else if e.message.Some? && e.message.value != "" then e.message.value
    else "Failed to update password. Please try again."
  }

  datatype View = Skeleton | ErrorView | NotFound | MainView

  /** Which view the page renders, in priority order. */
  function RenderView(loading: bool, error: JsValue, user: Option<User>): (v: View)
    ensures v == MainView <==> user.Some?
    ensures v == Skeleton <==> loading && user.None?
    ensures v == ErrorView <==> !loading && Truthy(error) && user.None?
    ensures v == NotFound <==> !loading && !Truthy(error) && user.None?
  {
    if loading && user.None? then Skeleton
    else if Truthy(error) && user.None? then ErrorView
    else if user.None? then NotFound
    else MainView
  }

  class ProfileState {
    var user: Option<User>
    var isEditing: bool
    var hasUnsavedChanges: bool
    var isUpdatingPassword: bool
    /** The profile form's current values. */
    var form: ProfileForm
    var passwordForm: PasswordForm

    /** Unsaved changes are only ever flagged while editing. */
    predicate Consistent()
      reads this
    {
      isEditing || !hasUnsavedChanges
    }

    constructor (user: Option<User>)
      ensures this.user == user && form == Defaults(user) && passwordForm == EmptyPasswordForm
      ensures !isEditing && !hasUnsavedChanges && !isUpdatingPassword
      ensures Consistent()
    {
      this.user := user;
      isEditing := false;
      hasUnsavedChanges := false;
      isUpdatingPassword := false;
      form := Defaults(user);
      passwordForm := EmptyPasswordForm;
    }

    /** The user types into the profile form. */
    method Type(values: ProfileForm)
      modifies this
      ensures form == values
      ensures user == old(user) && isEditing == old(isEditing) && hasUnsavedChanges == old(hasUnsavedChanges)
      ensures isUpdatingPassword == old(isUpdatingPassword) && passwordForm == old(passwordForm)
    {
      form := values;
    }

    /** The unsaved-changes effect: recomputed only while editing. */
    method WatchEffect()
      modifies this
      requires Consistent()
      ensures isEditing ==> (hasUnsavedChanges <==> form != Defaults(user))
      ensures !isEditing ==> hasUnsavedChanges == old(hasUnsavedChanges)
      ensures user == old(user) && isEditing == old(isEditing) && form == old(form)
      ensures isUpdatingPassword == old(isUpdatingPassword) && passwordForm == old(passwordForm)
      ensures Consistent()
    {
      if isEditing {
        HasChangesIsInequality(form, Defaults(user));
        hasUnsavedChanges := HasChanges(form, Defaults(user));
      }
    }

    /** `handleEditToggle`; `confirmed` is the answer to the confirmation,
        asked only when leaving edit mode with unsaved changes. */
    method EditToggle(confirmed: bool)
      modifies this
      requires Consistent()
      ensures old(isEditing) && old(hasUnsavedChanges) && !confirmed ==>
                isEditing == old(isEditing) && hasUnsavedChanges == old(hasUnsavedChanges) && form == old(form)
      ensures !(old(isEditing) && old(hasUnsavedChanges) && !confirmed) ==> isEditing == !old(isEditing)
      ensures old(isEditing) && (!old(hasUnsavedChanges) || confirmed) ==>
                form == Defaults(user) && !hasUnsavedChanges
      ensures !old(isEditing) ==> form == old(form) && hasUnsavedChanges == old(hasUnsavedChanges)
      ensures user == old(user) && isUpdatingPassword == old(isUpdatingPassword) && passwordForm == old(passwordForm)
      ensures Consistent()
    {
      if isEditing {
        if hasUnsavedChanges {
          if !confirmed {
            return;
          }
        }
        form := Defaults(user);
        hasUnsavedChanges := false;
      }
      isEditing := !isEditing;
    }

    /** `handleProfileUpdate`, given what `updateUserProfile` reported. */
    method ProfileUpdate(success: bool)
      modifies this
      requires Consistent()
      ensures success ==> !isEditing && !hasUnsavedChanges
      ensures !success ==> isEditing == old(isEditing) && hasUnsavedChanges == old(hasUnsavedChanges)
      ensures user == old(user) && form == old(form)
      ensures isUpdatingPassword == old(isUpdatingPassword) && passwordForm == old(passwordForm)
      ensures Consistent()
    {
      if success {
        isEditing := false;
        hasUnsavedChanges := false;
      }
    }

    /** The start of `handlePasswordUpdate`, before the request is awaited. */
    method PasswordUpdateStart()
      modifies this
      ensures isUpdatingPassword
      ensures user == old(user) && isEditing == old(isEditing) && hasUnsavedChanges == old(hasUnsavedChanges)
      ensures form == old(form) && passwordForm == old(passwordForm)
    {
      isUpdatingPassword := true;
    }

    /** The end of `handlePasswordUpdate`: the toast it shows for the
        request's outcome; the password form is reset only on success, and
        the busy flag is cleared either way. */
    method PasswordUpdateSettle(outcome: Result<(), ThrownError>) returns (toast: Result<string, string>)
      modifies this
      ensures !isUpdatingPassword
      ensures outcome.Ok? ==> passwordForm == EmptyPasswordForm && toast == Ok("Password updated successfully")
      ensures outcome.Err? ==> passwordForm == old(passwordForm) && toast == Err(PasswordErrorMessage(outcome.error))
      ensures user == old(user) && isEditing == old(isEditing) && hasUnsavedChanges == old(hasUnsavedChanges)
      ensures form == old(form)
    {
      if outcome.Ok? {
        toast := Ok("Password updated successfully");
        passwordForm := EmptyPasswordForm;
      } else {
        toast := Err(PasswordErrorMessage(outcome.error));
      }
      isUpdatingPassword := false;
    }

    /** The effect that follows the loaded user: a present user resets the
        form to its values and clears the unsaved flag. */
    method UserChanged(newUser: Option<User>)
      modifies this
      requires Consistent()
      ensures user == newUser
      ensures newUser.Some? ==> form == Defaults(newUser) && !hasUnsavedChanges
      ensures newUser.None? ==> form == old(form) && hasUnsavedChanges == old(hasUnsavedChanges)
      ensures isEditing == old(isEditing) && isUpdatingPassword == old(isUpdatingPassword)
      ensures passwordForm == old(passwordForm)
      ensures Consistent()
    {
      user := newUser;
      if newUser.Some? {
        form := Defaults(newUser);
        hasUnsavedChanges := false;
      }
    }

    /** The view rendered now. */
    function CurrentView(loading: bool, error: JsValue): View
      reads this
    {
      RenderView(loading, error, user)
    }
  }

  /** Entering edit mode and cancelling at once, without typing, asks no
      question and restores the starting state. */
  method EnterAndCancel(user: Option<User>) returns (editing: bool, unsaved: bool, restored: bool)
    ensures !editing && !unsaved && restored
  {
    var p := new ProfileState(user);
    p.EditToggle(false);
    p.WatchEffect();
    p.EditToggle(false);
    editing := p.isEditing;
    unsaved := p.hasUnsavedChanges;
    restored := p.form == Defaults(user);
  }
}
