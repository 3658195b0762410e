/** The profile form of the client (frontend/src/components/Profile.jsx):
    editing a field, the password checks made before the request is sent,
    and how the page's state is set from the answer of `PUT /users/profile`. */
module Profile {
  import opened Common
  import opened UserRoutes

  datatype Form = Form(
    username: string,
    email: string,
    currentPassword: string,
    newPassword: string,
    confirmNewPassword: string)

  /** The `name` attribute of an input of the form. */
  datatype Field = Username | Email | CurrentPassword | NewPassword | ConfirmNewPassword

  function Get(f: Form, field: Field): string {
    match field
    case Username => f.username
    case Email => f.email
    case CurrentPassword => f.currentPassword
    case NewPassword => f.newPassword
    case ConfirmNewPassword => f.confirmNewPassword
  }

  /** `{ ...formData, [name]: value }`: the named field takes the value and
      every other field keeps its own. */
  function WithField(f: Form, field: Field, value: string): (r: Form)
    ensures Get(r, field) == value
    ensures forall other :: other != field ==> Get(r, other) == Get(f, other)
  {
    match field
    case Username => f.(username := value)
    case Email => f.(email := value)
    case CurrentPassword => f.(currentPassword := value)
    case NewPassword => f.(newPassword := value)
    case ConfirmNewPassword => f.(confirmNewPassword := value)
  }

  /** The checks at the top of `handleSubmit`: the error they set, if any.
      They apply only when a new password is typed, and a mismatch with its
      confirmation is reported before a missing current password. */
  function Validate(f: Form): (error: Option<string>)
    ensures error.None? <==> f.newPassword == "" || (f.newPassword == f.confirmNewPassword && f.currentPassword != "")
    ensures f.newPassword != "" && f.newPassword != f.confirmNewPassword ==> error == Some("New passwords do not match")
    ensures f.newPassword != "" && f.newPassword == f.confirmNewPassword && f.currentPassword == "" ==>
      error == Some("Current password is required to change password")
  {
    if f.newPassword != "" then
      if f.newPassword != f.confirmNewPassword then Some("New passwords do not match")
      else if f.currentPassword == "" then Some("Current password is required to change password")
      else None
    else None
  }

  /** The body of `PUT /users/profile`; an empty password field is sent as
      `undefined`, which the route reads as the empty string. */
  datatype UpdateRequest = UpdateRequest(username: string, email: string, currentPassword: string, newPassword: string)

  function RequestOf(f: Form): UpdateRequest {
    UpdateRequest(f.username, f.email, f.currentPassword, f.newPassword)
  }

  /** A request that passed the client's checks never meets the route's
      "current password is required" refusal, and where the client itself
      refuses a confirmed new password for that reason it shows the route's
      own message. */
  lemma ValidRequestHasCurrentPassword(f: Form)
    ensures Validate(f).None? ==>
      !MissingCurrentPassword(RequestOf(f).currentPassword, RequestOf(f).newPassword)
    ensures MissingCurrentPassword(f.currentPassword, f.newPassword) && f.newPassword == f.confirmNewPassword ==>
      Validate(f) == Some("Current password is required to change password")
  {
  }

  /** The error shown for a failed request: the `message` of the error
      reply when there is a non-empty one, `'Failed to update profile'` when
      the reply has none or no reply came. */
  function FailureText(reply: Option<Reply<PublicUser>>): (text: string)
    requires reply.None? || reply.value.Fail?
    ensures reply.Some? && reply.value.message != "" ==> text == reply.value.message
    ensures reply.None? || reply.value.message == "" ==> text == "Failed to update profile"
  {
    if reply.Some? && reply.value.message != "" then reply.value.message else "Failed to update profile"
  }

  class ProfilePage {
    var form: Form
    var error: string
    var success: string
    var isEditing: bool
    var isLoading: bool
    /** The signed-in user as the app holds it: the login summary, or the
        document the last profile update sent back. */
    var user: PublicUser

    /** The form as the page's effect fills it from the signed-in user. */
    constructor (user: PublicUser)
      ensures form == Form(user.username, user.email, "", "", "")
      ensures error == "" && success == "" && !isEditing && !isLoading && this.user == user
    {
      form := Form(user.username, user.email, "", "", "");
      error := "";
      success := "";
      isEditing := false;
      isLoading := false;
      this.user := user;
    }

    /** `handleChange`: one field changes and both messages are cleared. */
    method HandleChange(field: Field, value: string)
      modifies this
      ensures form == WithField(old(form), field, value)
      ensures error == "" && success == ""
      ensures isEditing == old(isEditing) && isLoading == old(isLoading) && user == old(user)
    {
      form := WithField(form, field, value);
      error := "";
      success := "";
    }

    /** `handleSubmit`. The result is the request sent, if the checks let one
        through; `reply` is what it got back: `None` when no reply came, an
        error reply, or the updated user. */
    method HandleSubmit(reply: Option<Reply<PublicUser>>) returns (sent: Option<UpdateRequest>)
      modifies this
      ensures !isLoading
      ensures Validate(old(form)).Some? ==>
        && sent == None && error == Validate(old(form)).value && success == ""
        && form == old(form) && isEditing == old(isEditing) && user == old(user)
      ensures Validate(old(form)).None? ==>
        && sent == Some(RequestOf(old(form)))
        && if reply.Some? && reply.value.Ok? then
             && user == reply.value.value && success == "Profile updated successfully" && error == ""
             && !isEditing
             && form == old(form).(currentPassword := "", newPassword := "", confirmNewPassword := "")
           else
             && error == FailureText(reply) && success == ""
             && form == old(form) && isEditing == old(isEditing) && user == old(user)
    {
      isLoading := true;
      error := "";
      success := "";
      var invalid := Validate(form);
      if invalid.Some? {
        error := invalid.value;
        isLoading := false;
        return None;
      }
      sent := Some(RequestOf(form));
      if reply.Some? && reply.value.Ok? {
        user := reply.value.value;
        success := "Profile updated successfully";
        isEditing := false;
        form := form.(currentPassword := "", newPassword := "", confirmNewPassword := "");
      } else {
        error := FailureText(reply);
      }
      isLoading := false;
    }
  }
}
