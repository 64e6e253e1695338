/** The profile page `frontend/src/pages/UserProfile.jsx`: the personal
    information form's initial values and its Cancel button, and the change
    password form's `handlePasswordChange`. */
module UserProfile {
  import opened Common
  import opened Validators
  import opened Accounts
  import opened Http
  import opened FormErrors
  import UserController

  // ---------------------------------------------------------------- personal information

  datatype ProfileForm = ProfileForm(fullName: string, email: string)

  /** `currentUser?.fullName || ''` and `currentUser?.email || ''`. */
  function InitialProfile(current: Option<AccountView>): (f: ProfileForm)
    ensures current.None? ==> f.fullName == "" && f.email == ""
    ensures current.Some? ==> f.fullName == current.value.fullName && f.email == current.value.email
  {
    match current
    case None => ProfileForm("", "")
    case Some(u) => ProfileForm(u.fullName, u.email)
  }

  /** A keystroke's worth of editing: the input's whole new value. */
  datatype Edit = TypeName(name: string) | TypeEmail(email: string)

  /** `setFormData({ ...formData, field: e.target.value })`. */
  function ApplyEdit(f: ProfileForm, e: Edit): ProfileForm {
    match e
    case TypeName(v) => f.(fullName := v)
    case TypeEmail(v) => f.(email := v)
  }

  function ApplyEdits(f: ProfileForm, edits: seq<Edit>): (r: ProfileForm)
    decreases |edits|
  {
    if |edits| == 0 then f else ApplyEdits(ApplyEdit(f, edits[0]), edits[1..])
  }

  /** The last value typed into the name input, if any. */
  function LastName(edits: seq<Edit>): Option<string>
    decreases |edits|
  {
    if |edits| == 0 then None
    else match LastName(edits[1..])
      case Some(v) => Some(v)
      case None => if edits[0].TypeName? then Some(edits[0].name) else None
  }

  /** The last value typed into the email input, if any. */
  function LastEmail(edits: seq<Edit>): Option<string>
    decreases |edits|
  {
    if |edits| == 0 then None
    else match LastEmail(edits[1..])
      case Some(v) => Some(v)
      case None => if edits[0].TypeEmail? then Some(edits[0].email) else None
  }

  /** Each input holds what was last typed into it, or its starting value:
      the two fields never interfere. */
  lemma {:induction false} EditsKeepLastValues(f: ProfileForm, edits: seq<Edit>)
    ensures ApplyEdits(f, edits).fullName == LastName(edits).GetOr(f.fullName)
    ensures ApplyEdits(f, edits).email == LastEmail(edits).GetOr(f.email)
    decreases |edits|
  {
    if |edits| > 0 {
      EditsKeepLastValues(ApplyEdit(f, edits[0]), edits[1..]);
    }
  }

  /** The Cancel button: whatever was typed, the form goes back to the
      values it started from. */
  function Cancel(current: Option<AccountView>, f: ProfileForm): (r: ProfileForm)
    ensures r == InitialProfile(current)
  {
    InitialProfile(current)
  }

  /** Cancelling after any edits restores the form to its initial state. */
  lemma CancelUndoesEdits(current: Option<AccountView>, edits: seq<Edit>)
    ensures Cancel(current, ApplyEdits(InitialProfile(current), edits)) == InitialProfile(current)
    ensures current.Some? ==> Cancel(current, ApplyEdits(InitialProfile(current), edits))
                                == ProfileForm(current.value.fullName, current.value.email)
  {
  }

  // ---------------------------------------------------------------- password

  datatype PasswordForm = PasswordForm(currentPassword: string, newPassword: string, confirmPassword: string)

  const BlankPasswordForm := PasswordForm("", "", "")

  /** The change-password card: its inputs and the errors shown under them. */
  datatype PasswordCard = PasswordCard(form: PasswordForm, errors: Errors)

  /** The result of submitting the card: the card afterwards, the toast the
      submission raises, if any, and the `currentPassword`/`newPassword`
      pair sent to the server, if any. */
  datatype PasswordSubmit = PasswordSubmit(card: PasswordCard, toast: Option<string>, request: Option<PasswordForm>)

  const ChangedToast := "Password changed successfully"

  /** The card's checks: the new password present and at least 8 long, and
      the confirmation equal to it. The current password is not checked. */
  function PasswordErrors(f: PasswordForm): (errors: Errors)
    ensures NewPassword in errors <==> |f.newPassword| < 8
    ensures NewPassword in errors ==> errors[NewPassword] == "Password must be at least 8 characters"
    ensures ConfirmPassword in errors <==> f.newPassword != f.confirmPassword
    ensures ConfirmPassword in errors ==> errors[ConfirmPassword] == "Passwords do not match"
    ensures errors.Keys <= {NewPassword, ConfirmPassword}
  {
    var e0: Errors := map[];
    var e1 := Note(e0, NewPassword,
                   if f.newPassword == "" || |f.newPassword| < 8 then Some("Password must be at least 8 characters") else None);
    Note(e1, ConfirmPassword, if f.newPassword != f.confirmPassword then Some("Passwords do not match") else None)
  }

  /** The card is clean exactly when the new password is at least 8 long and confirmed. */
  lemma PasswordCardCleanIff(f: PasswordForm)
    ensures |PasswordErrors(f)| == 0 <==> |f.newPassword| >= 8 && f.newPassword == f.confirmPassword
  {
    var e := PasswordErrors(f);
    if |f.newPassword| >= 8 && f.newPassword == f.confirmPassword {
      assert e.Keys == {};
    } else {
      assert NewPassword in e || ConfirmPassword in e;
    }
  }

  /** `handlePasswordChange` as written. With errors the card shows them and
      keeps its inputs; otherwise it clears the inputs and the errors and
      raises the success toast. It never sends a request. */
  function HandlePasswordChange(c: PasswordCard): (r: PasswordSubmit)
    ensures r.request.None?
    ensures r.toast.Some? <==> |c.form.newPassword| >= 8 && c.form.newPassword == c.form.confirmPassword
    ensures r.toast.None? ==> r.card == PasswordCard(c.form, PasswordErrors(c.form))
    ensures r.toast.Some? ==> r.toast.value == ChangedToast && r.card == PasswordCard(BlankPasswordForm, map[])
  {
    var errors := PasswordErrors(c.form);
    PasswordCardCleanIff(c.form);
    if |errors| > 0 then PasswordSubmit(c.(errors := errors), None, None)
    else PasswordSubmit(PasswordCard(BlankPasswordForm, map[]), Some(ChangedToast), None)
  }

  /** The discrepancy: a correct, strong change is reported as done, yet
      nothing reaches the server, so the stored password stays the old one. */
  lemma PasswordChangeNeverSent(c: PasswordCard, s: Store, who: Identity, salt: nat)
    requires c.form == PasswordForm("Test@123", "NewTest@456", "NewTest@456")
    ensures HandlePasswordChange(c).toast == Some(ChangedToast)
    ensures HandlePasswordChange(c).request.None?
    ensures SubmitPasswordChange(c, s, who, salt).request == Some(c.form)
  {
  }

  /** `handlePasswordChange` as evidently intended: a clean card calls
      `api.changePassword(currentPassword, newPassword)`, which the server
      answers with `changePassword` for the signed-in account `who`. The
      inputs are cleared and the success toast raised only on a 200 answer;
      any other answer raises the failure toast and keeps the inputs. */
  function SubmitPasswordChange(c: PasswordCard, s: Store, who: Identity, salt: nat): (r: PasswordSubmit)
    ensures r.request.Some? <==> |c.form.newPassword| >= 8 && c.form.newPassword == c.form.confirmPassword
    ensures r.request.None? ==> r == PasswordSubmit(PasswordCard(c.form, PasswordErrors(c.form)), None, None)
    ensures r.request.Some? ==> r.request.value == c.form
    ensures r.toast == Some(ChangedToast) <==>
              r.request.Some?
              && UserController.ChangePassword(s, who, c.form.currentPassword, c.form.newPassword, salt).response.status == 200
    ensures r.toast == Some(ChangedToast) ==> r.card == PasswordCard(BlankPasswordForm, map[])
    ensures r.request.Some? && r.toast != Some(ChangedToast) ==> r.card == c && r.toast == Some("Failed to change password")
  {
    var errors := PasswordErrors(c.form);
    PasswordCardCleanIff(c.form);
    if |errors| > 0 then PasswordSubmit(c.(errors := errors), None, None)
    else if UserController.ChangePassword(s, who, c.form.currentPassword, c.form.newPassword, salt).response.status == 200 then
      PasswordSubmit(PasswordCard(BlankPasswordForm, map[]), Some(ChangedToast), Some(c.form))
    else
      PasswordSubmit(c, Some("Failed to change password"), Some(c.form))
  }

  /** The success toast of the corrected handler means the server stored a
      digest that verifies the new password for the signed-in account, and
      nothing else changed. */
  lemma SuccessToastMeansChanged(c: PasswordCard, s: Store, who: Identity, salt: nat)
    requires ValidStore(s)
    requires SubmitPasswordChange(c, s, who, salt).toast == Some(ChangedToast)
    ensures IndexOfId(s, who.id).Some?
    ensures var t := UserController.ChangePassword(s, who, c.form.currentPassword, c.form.newPassword, salt).store;
            var i := IndexOfId(s, who.id).value;
            && |t| == |s| && Verify(c.form.newPassword, t[i].password)
            && Verify(c.form.currentPassword, s[i].password)
            && forall j | 0 <= j < |s| && j != i :: t[j] == s[j]
  {
    var f := c.form;
    var r := UserController.ChangePassword(s, who, f.currentPassword, f.newPassword, salt);
    assert r.response.status == 200;
    var i := IndexOfId(s, who.id).value;
    assert r.store == s[i := s[i].(password := Hash(f.newPassword, salt))];
  }

  /** The card checks length only, so a card it lets through can still be
      refused by the server's password policy with a 400. */
  lemma CardLaxerThanPolicy(c: PasswordCard, s: Store, who: Identity, salt: nat)
    requires c.form == PasswordForm("Test@123", "abcdefgh", "abcdefgh")
    ensures SubmitPasswordChange(c, s, who, salt).request.Some?
    ensures UserController.ChangePassword(s, who, c.form.currentPassword, c.form.newPassword, salt).response.status == 400
    ensures SubmitPasswordChange(c, s, who, salt).toast == Some("Failed to change password")
  {
    var p := "abcdefgh";
    assert !HasUpper(p) by {
      assert forall i | 0 <= i < |p| :: !Text.IsAsciiUpper(p[i]);
    }
  }
}
