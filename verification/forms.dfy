/** The client-side checks both credential pages share: the email field's
    message and the shape of an error map. */
module FormErrors {
  import opened Common
  import opened Validators

  /** The form fields an error can be reported on. */
  datatype Field = FullName | Email | Password | ConfirmPassword | NewPassword

  /** `newErrors`: field to message. The form is valid when
      `Object.keys(newErrors).length === 0`. */
  type Errors = map<Field, string>

  /** The email field's message on both pages: required first, then the
      pattern `\S+@\S+\.\S+`. */
  function EmailError(email: string): (e: Option<string>)
    ensures email == "" <==> e == Some("Email is required")
    ensures e == Some("Invalid email format") <==> email != "" && !IsValidEmail(email)
    ensures e.None? <==> IsValidEmail(email)
  {
    if email == "" then Some("Email is required")
    else if !IsValidEmail(email) then Some("Invalid email format")
    else None
  }

  /** `errors` with `field` set to the message, if there is one. */
  function Note(errors: Errors, field: Field, message: Option<string>): (r: Errors)
    ensures message.None? ==> r == errors
    ensures message.Some? ==> r == errors[field := message.value]
  {
    match message
    case None => errors
    case Some(m) => errors[field := m]
  }

  /** What submitting a form does: the errors shown, and the form passed on
      to the request, if any. */
  datatype Submission<F> = Submission(errors: Errors, request: Option<F>)

  /** `handleSubmit` on both pages: `setErrors(newErrors)`, then the request
      only when there are no errors, with the form as it stands. */
  function SubmitChecked<F>(f: F, errors: Errors): (r: Submission<F>)
    ensures r.errors == errors
    ensures r.request.Some? <==> |errors| == 0
    ensures r.request.Some? ==> r.request.value == f
  {
    if |errors| == 0 then Submission(errors, Some(f)) else Submission(errors, None)
  }
}

/** `validateForm` and `handleSubmit` of `frontend/src/pages/SignupPage.jsx`. */
module SignupPage {
  import opened Common
  import opened Text
  import opened Validators
  import opened Accounts
  import opened Http
  import opened FormErrors
  import AuthController
  import Routes
  import Gate

  datatype SignupForm = SignupForm(fullName: string, email: string, password: string, confirmPassword: string)

  /** Blank after trimming first, then fewer than two characters (untrimmed). */
  function NameError(name: string): (e: Option<string>)
    ensures IsBlank(name) <==> e == Some("Full name is required")
    ensures e == Some("Name must be at least 2 characters") <==> !IsBlank(name) && |name| < 2
    ensures e.None? <==> !IsBlank(name) && |name| >= 2
  {
    TrimEmptyIffBlank(name);
    if Trim(name) == "" then Some("Full name is required")
    else if |name| < 2 then Some("Name must be at least 2 characters")
    else None
  }

  /** Empty first, then shorter than 8, then the class pattern: one message at most. */
  function PasswordError(password: string): (e: Option<string>)
    ensures password == "" <==> e == Some("Password is required")
    ensures e == Some("Password must be at least 8 characters") <==> password != "" && |password| < 8
    ensures e == Some("Password must include uppercase, lowercase & number") <==>
              |password| >= 8 && !HasAllClassesOnOneLine(password)
    ensures e.None? <==> |password| >= 8 && HasAllClassesOnOneLine(password)
  {
    if password == "" then Some("Password is required")
    else if |password| < 8 then Some("Password must be at least 8 characters")
    else if !HasAllClassesOnOneLine(password) then Some("Password must include uppercase, lowercase & number")
    else None
  }

  /** The confirmation is compared with the password whatever the password's own check says. */
  function ConfirmError(f: SignupForm): (e: Option<string>)
    ensures e.None? <==> f.password == f.confirmPassword
  {
    if f.password != f.confirmPassword then Some("Passwords do not match") else None
  }

  /** `validateForm`: the error map, one entry per failing field. */
  function Validate(f: SignupForm): (errors: Errors)
    ensures FullName in errors <==> NameError(f.fullName).Some?
    ensures Email in errors <==> EmailError(f.email).Some?
    ensures Password in errors <==> PasswordError(f.password).Some?
    ensures ConfirmPassword in errors <==> f.password != f.confirmPassword
    ensures errors.Keys <= {FullName, Email, Password, ConfirmPassword}
  {
    var e0: Errors := map[];
    var e1 := Note(e0, FullName, NameError(f.fullName));
    var e2 := Note(e1, Email, EmailError(f.email));
    var e3 := Note(e2, Password, PasswordError(f.password));
    Note(e3, ConfirmPassword, ConfirmError(f))
  }

  /** Each failing field shows its own check's message. */
  lemma ValidateMessages(f: SignupForm)
    ensures var errors := Validate(f);
            && (FullName in errors ==> Some(errors[FullName]) == NameError(f.fullName))
            && (Email in errors ==> Some(errors[Email]) == EmailError(f.email))
            && (Password in errors ==> Some(errors[Password]) == PasswordError(f.password))
            && (ConfirmPassword in errors ==> errors[ConfirmPassword] == "Passwords do not match")
  {
  }

  /** The form is valid exactly when every field passes its own check. */
  lemma ValidIffEveryFieldPasses(f: SignupForm)
    ensures |Validate(f)| == 0 <==>
              && !IsBlank(f.fullName) && |f.fullName| >= 2
              && IsValidEmail(f.email)
              && |f.password| >= 8 && HasAllClassesOnOneLine(f.password)
              && f.password == f.confirmPassword
  {
    var errors := Validate(f);
    if |errors| == 0 {
      assert FullName !in errors && Email !in errors;
      assert Password !in errors && ConfirmPassword !in errors;
    } else {
      var k :| k in errors;
    }
  }

  /** `handleSubmit`: `api.signup(formData)` only when the form is valid. */
  function Submit(f: SignupForm): (r: Submission<SignupForm>)
    ensures r.errors == Validate(f)
    ensures r.request.Some? <==> |Validate(f)| == 0
    ensures r.request.Some? ==> r.request.value == f
  {
    SubmitChecked(f, Validate(f))
  }

  /** A form the page lets through meets the server's signup checks: the
      client's password pattern implies the server's policy. So the server
      creates the account unless the email is taken. */
  lemma SubmittedFormPassesServerChecks(f: SignupForm)
    requires Submit(f).request.Some?
    ensures f.email != "" && f.password != "" && f.fullName != ""
    ensures IsValidEmail(f.email) && IsStrongPassword(f.password) && !IsBlank(f.fullName)
  {
    ValidIffEveryFieldPasses(f);
    OneLineClassesHaveAll(f.password);
  }

  /** `JSON.stringify(formData)`: the body `api.signup` posts. */
  function SignupBody(f: SignupForm): (body: map<string, string>)
    ensures Routes.Field(body, "fullName") == f.fullName && Routes.Field(body, "email") == f.email
    ensures Routes.Field(body, "password") == f.password
  {
    map["fullName" := f.fullName, "email" := f.email, "password" := f.password, "confirmPassword" := f.confirmPassword]
  }

  /** The request a submitted form sends creates the account, whatever the
      Authorization header holds, unless the email is already registered. */
  lemma SubmittedSignupCreatesAccount(s: Store, f: SignupForm, c: Gate.Credential,
                                                         newId: string, now: nat, salt: nat)
    requires Submit(f).request.Some? && ValidStore(s)
    requires IndexOfEmail(s, NormalizeEmail(f.email)).None?
    requires |newId| > 0 && IndexOfId(s, newId).None?
    ensures var req := Routes.Request(Routes.Post, ["api", "auth", "signup"], c, Routes.Query(None, None), SignupBody(f));
            var r := Routes.Serve(s, req, newId, now, salt);
            && r.response.status == 201
            && r.store == s + [NewAccount(newId, f.email, Hash(f.password, salt), f.fullName, now)]
  {
    var req := Routes.Request(Routes.Post, ["api", "auth", "signup"], c, Routes.Query(None, None), SignupBody(f));
    Routes.SignupIsOpen(s, req, newId, now, salt);
    SubmittedFormPassesServerChecks(f);
    assert AuthController.SignupAccepted(s, f.email, f.password, f.fullName, newId);
  }
}

/** `validateForm` and `handleSubmit` of `frontend/src/pages/LoginPage.jsx`. */
module LoginPage {
  import opened Common
  import opened Validators
  import opened FormErrors

  datatype LoginForm = LoginForm(email: string, password: string)

  /** `validateForm`: the email as on the signup page, the password only required. */
  function Validate(f: LoginForm): (errors: Errors)
    ensures Email in errors <==> EmailError(f.email).Some?
    ensures Email in errors ==> Some(errors[Email]) == EmailError(f.email)
    ensures Password in errors <==> f.password == ""
    ensures Password in errors ==> errors[Password] == "Password is required"
    ensures errors.Keys <= {Email, Password}
  {
    var e0: Errors := map[];
    var e1 := Note(e0, Email, EmailError(f.email));
    Note(e1, Password, if f.password == "" then Some("Password is required") else None)
  }

  /** There is no strength check at login: the form is valid exactly when
      the email matches the pattern and some password is given. */
  lemma ValidIffEmailAndPassword(f: LoginForm)
    ensures |Validate(f)| == 0 <==> IsValidEmail(f.email) && f.password != ""
  {
    var errors := Validate(f);
    if |errors| == 0 {
      assert Email !in errors && Password !in errors;
    } else {
      var k :| k in errors;
    }
  }

  /** `handleSubmit`: `login(email, password)` only when the form is valid. */
  function Submit(f: LoginForm): (r: Submission<LoginForm>)
    ensures r.errors == Validate(f)
    ensures r.request.Some? <==> |Validate(f)| == 0
    ensures r.request.Some? ==> r.request.value == f
  {
    SubmitChecked(f, Validate(f))
  }

  /** A weak password still reaches the server, which decides by the stored hash alone. */
  lemma WeakPasswordSubmitted()
    ensures Submit(LoginForm("test@example.com", "weak")).request.Some?
  {
    EmailPatternExamples();
    ValidIffEmailAndPassword(LoginForm("test@example.com", "weak"));
  }
}
