/** The token gate (`authenticateToken`, `requireAdmin`). Its source file is
    not part of this model; its behaviour is fixed by the responses
    `backend/tests/auth.test.js` expects. */
module Gate {
  import opened Accounts
  import opened Http

  /** What the `Authorization: Bearer <token>` header holds: nothing, a token
      whose signature or expiry check fails, or a genuine token. */
  datatype Credential = Missing | Invalid | Valid(token: Token)

  /** A guard either lets the request through, with the caller's identity,
      or answers it. */
  datatype Verdict = Pass(who: Identity) | Stop(response: Response)

  const TokenRequired := "Access token required"
  const TokenRejected := "Invalid or expired token"
  const AdminRequired := "Admin access required"

  /** `authenticateToken`: 401 without a token, 403 for a bad one, otherwise
      the token's claims become the caller's identity. */
  function AuthenticateToken(c: Credential): (v: Verdict)
    ensures c.Missing? <==> v == Stop(Error(401, TokenRequired))
    ensures c.Invalid? <==> v == Stop(Error(403, TokenRejected))
    ensures c.Valid? ==> v == Pass(c.token.claims)
    ensures v.Pass? ==> c.Valid?
  {
    match c
    case Missing => Stop(Error(401, TokenRequired))
    case Invalid => Stop(Error(403, TokenRejected))
    case Valid(t) => Pass(t.claims)
  }

  /** `requireAdmin`: only a caller whose token says `admin` passes. */
  function RequireAdmin(who: Identity): (v: Verdict)
    ensures v.Pass? <==> who.role == Admin
    ensures v.Pass? ==> v.who == who
    ensures v.Stop? ==> v.response == Error(403, AdminRequired)
  {
    if who.role == Admin then Pass(who) else Stop(Error(403, AdminRequired))
  }
}

/** Signup, login, `/me` and logout. Their controller is not part of this
    model; the results below are the ones `backend/tests/auth.test.js`
    asserts, with the checks in the order presence, email format, password
    policy, uniqueness. */
module AuthController {
  import opened Common
  import opened Text
  import opened Validators
  import opened Accounts
  import opened Http
  import opened Gate
  import UserController

  const FieldsRequired := "All fields are required"
  const InvalidEmail := "Invalid email format"
  const EmailRegistered := "Email already registered"
  const BadCredentials := "Invalid credentials"

  /** The inputs with which signup creates an account: every field given,
      the email matching the pattern and not yet registered, the password
      strong, the name not blank, and a fresh non-empty id. */
  predicate SignupAccepted(s: Store, email: string, password: string, fullName: string, newId: string) {
    && email != "" && password != "" && fullName != ""
    && IsValidEmail(email) && IsStrongPassword(password)
    && IndexOfEmail(s, NormalizeEmail(email)).None?
    && !IsBlank(fullName)
    && |newId| > 0 && IndexOfId(s, newId).None?
  }

  /** `signup`: creates a `user`-role, `active` account and answers 201 with
      a token for it. `newId`, `now` and `salt` stand for the generated
      ObjectId, the creation time and bcrypt's random salt. */
  function Signup(s: Store, email: string, password: string, fullName: string,
                  newId: string, now: nat, salt: nat): (r: Reply)
    ensures email == "" || password == "" || fullName == "" ==> r == Refuse(s, 400, FieldsRequired)
    ensures email != "" && password != "" && fullName != "" && !IsValidEmail(email) ==>
              r == Refuse(s, 400, InvalidEmail)
    ensures email != "" && fullName != "" && IsValidEmail(email) && password != "" && !IsStrongPassword(password) ==>
              r == Refuse(s, 400, PasswordPolicyMessage)
    ensures email != "" && fullName != "" && IsValidEmail(email) && IsStrongPassword(password)
              && IndexOfEmail(s, NormalizeEmail(email)).Some? ==>
              r == Refuse(s, 409, EmailRegistered)
    ensures SignupAccepted(s, email, password, fullName, newId) ==>
              var a := NewAccount(newId, email, Hash(password, salt), fullName, now);
              && r.store == s + [a]
              && r.response == Response(201, TokenBody(Token(Identity(newId, User)), None, View(a)))
    ensures r.response.status != 201 ==> r.store == s
    ensures ValidStore(s) ==> ValidStore(r.store)
  {
    if email == "" || password == "" || fullName == "" then Refuse(s, 400, FieldsRequired)
    else if !IsValidEmail(email) then Refuse(s, 400, InvalidEmail)
    else if !IsStrongPassword(password) then Refuse(s, 400, PasswordPolicyMessage)
    else if IndexOfEmail(s, NormalizeEmail(email)).Some? then Refuse(s, 409, EmailRegistered)
    else
      var a := NewAccount(newId, email, Hash(password, salt), fullName, now);
      match Insert(s, a)
      case None => Refuse(s, 500, InternalError)
      case Some(s') =>
        Reply(Response(201, TokenBody(Token(Identity(newId, User)), None, View(a))), s')
  }

  /** The account a login names, if its password is right. */
  predicate CredentialsMatch(s: Store, email: string, password: string) {
    exists i | 0 <= i < |s| :: s[i].email == NormalizeEmail(email) && Verify(password, s[i].password)
  }

  /** `login`: a token for the account with that email and password. An
      unknown email and a wrong password get the same 401 answer. */
  function Login(s: Store, email: string, password: string): (r: Reply)
    ensures r.store == s
    ensures !CredentialsMatch(s, email, password) ==> r.response == Error(401, BadCredentials)
    ensures ValidStore(s) && CredentialsMatch(s, email, password) ==>
              exists i | 0 <= i < |s| :: && s[i].email == NormalizeEmail(email)
                                         && r.response == Response(200, TokenBody(Token(Identity(s[i].id, s[i].role)),
                                                                                  Some("Login successful"), View(s[i])))
  {
    match IndexOfEmail(s, NormalizeEmail(email))
    case None => Refuse(s, 401, BadCredentials)
    case Some(i) =>
      if !Verify(password, s[i].password) then
        assert ValidStore(s) ==> !CredentialsMatch(s, email, password) by {
          if ValidStore(s) {
            forall j | 0 <= j < |s| && s[j].email == NormalizeEmail(email)
              ensures !Verify(password, s[j].password)
            {
              EmailIsKey(s, i, j);
            }
          }
        }
        Refuse(s, 401, BadCredentials)
      else
        Reply(Response(200, TokenBody(Token(Identity(s[i].id, s[i].role)), Some("Login successful"), View(s[i]))), s)
  }

  /** In a valid store at most one record has a given email. */
  lemma EmailIsKey(s: Store, i: int, j: int)
    requires ValidStore(s) && 0 <= i < |s| && 0 <= j < |s| && s[i].email == s[j].email
    ensures i == j
  {
  }

  /** `getMe`: the caller's own record, fetched fresh, without the password. */
  function Me(s: Store, who: Identity): (r: Reply)
    ensures r.store == s
    ensures IndexOfId(s, who.id).None? ==> r.response == Error(404, UserNotFound)
    ensures IndexOfId(s, who.id).Some? ==>
              var a := s[IndexOfId(s, who.id).value];
              a.id == who.id && r.response == Response(200, UserBody(None, View(a)))
  {
    match IndexOfId(s, who.id)
    case None => Refuse(s, 404, UserNotFound)
    case Some(i) => Reply(Response(200, UserBody(None, View(s[i]))), s)
  }

  /** `logout`: tokens are stateless, so the server only acknowledges. */
  function Logout(s: Store, who: Identity): (r: Reply)
    ensures r.store == s && r.response.status == 200
  {
    Reply(Response(200, MessageBody("Logged out successfully")), s)
  }

  // ---------------------------------------------------------------- properties

  /** A second signup with the same email (up to case and surrounding white
      space) is refused with 409 and creates nothing: exactly one account
      holds the email. */
  lemma SecondSignupConflicts(s: Store, email: string, email2: string, password: string, password2: string,
                              fullName: string, fullName2: string, id: string, id2: string,
                              now: nat, now2: nat, salt: nat, salt2: nat)
    requires ValidStore(s) && SignupAccepted(s, email, password, fullName, id)
    requires NormalizeEmail(email2) == NormalizeEmail(email)
    requires email2 != "" && fullName2 != "" && IsValidEmail(email2) && IsStrongPassword(password2)
    ensures var first := Signup(s, email, password, fullName, id, now, salt);
            var second := Signup(first.store, email2, password2, fullName2, id2, now2, salt2);
            && second.response == Error(409, EmailRegistered)
            && second.store == first.store
            && (forall i, j | 0 <= i < |second.store| && 0 <= j < |second.store|
                  && second.store[i].email == NormalizeEmail(email) && second.store[j].email == NormalizeEmail(email) :: i == j)
  {
    var first := Signup(s, email, password, fullName, id, now, salt);
    assert first.store[|s|].email == NormalizeEmail(email2);
    assert IndexOfEmail(first.store, NormalizeEmail(email2)).Some?;
  }

  /** Signing up and then logging in with the same email and password gives a
      token for the new account, with role `user`. */
  lemma LoginAfterSignup(s: Store, email: string, password: string, fullName: string,
                         id: string, now: nat, salt: nat)
    requires ValidStore(s) && SignupAccepted(s, email, password, fullName, id)
    ensures var t := Signup(s, email, password, fullName, id, now, salt).store;
            var r := Login(t, email, password);
            && r.response.status == 200
            && r.response.body.TokenBody?
            && r.response.body.token == Token(Identity(id, User))
            && r.response.body.message == Some("Login successful")
  {
    var t := Signup(s, email, password, fullName, id, now, salt).store;
    assert t[|s|].email == NormalizeEmail(email) && Verify(password, t[|s|].password);
    assert CredentialsMatch(t, email, password);
    var r := Login(t, email, password);
    var i :| 0 <= i < |t| && t[i].email == NormalizeEmail(email)
             && r.response == Response(200, TokenBody(Token(Identity(t[i].id, t[i].role)),
                                                      Some("Login successful"), View(t[i])));
    EmailIsKey(t, i, |s|);
  }

  /** The token a login returns opens `/me`, which answers with the account
      that logged in. */
  lemma LoginTokenOpensMe(s: Store, email: string, password: string)
    requires ValidStore(s) && CredentialsMatch(s, email, password)
    ensures var r := Login(s, email, password);
            && r.response.body.TokenBody?
            && var v := AuthenticateToken(Valid(r.response.body.token));
            && v.Pass?
            && var me := Me(s, v.who);
            && me.response.status == 200
            && me.response.body.UserBody?
            && me.response.body.user.email == NormalizeEmail(email)
  {
    var i := IndexOfEmail(s, NormalizeEmail(email)).value;
    var j :| 0 <= j < |s| && s[j].email == NormalizeEmail(email) && Verify(password, s[j].password);
    EmailIsKey(s, i, j);
    var r := Login(s, email, password);
    assert r.response.body.token == Token(Identity(s[i].id, s[i].role));
    var v := AuthenticateToken(Valid(r.response.body.token));
    assert v.who == Identity(s[i].id, s[i].role);
    var k := IndexOfId(s, s[i].id).value;
    IdIsKey(s, i, k);
    assert Me(s, v.who).response == Response(200, UserBody(None, View(s[i])));
  }

  /** After a password change the new password logs in and a different old
      one no longer does. */
  lemma PasswordChangeTakesEffect(s: Store, who: Identity, currentPassword: string, newPassword: string, salt: nat)
    requires ValidStore(s) && currentPassword != "" && IsStrongPassword(newPassword)
    requires IndexOfId(s, who.id).Some? && Verify(currentPassword, s[IndexOfId(s, who.id).value].password)
    ensures var t := UserController.ChangePassword(s, who, currentPassword, newPassword, salt).store;
            var email := s[IndexOfId(s, who.id).value].email;
            && Login(t, email, newPassword).response.status == 200
            && (currentPassword != newPassword ==> Login(t, email, currentPassword).response == Error(401, BadCredentials))
  {
    var i := IndexOfId(s, who.id).value;
    var t := UserController.ChangePassword(s, who, currentPassword, newPassword, salt).store;
    var email := s[i].email;
    assert WellFormed(s[i]);
    NormalizeIdempotent(email);
    assert t[i].email == NormalizeEmail(email) && Verify(newPassword, t[i].password);
    assert CredentialsMatch(t, email, newPassword);
    if currentPassword != newPassword {
      forall j | 0 <= j < |t| && t[j].email == NormalizeEmail(email)
        ensures !Verify(currentPassword, t[j].password)
      {
        EmailIsKey(t, i, j);
      }
    }
  }
  /** After a profile update that changes the email, `/me` shows the new
      email and the unchanged password logs in under it. */
  lemma ProfileUpdateTakesEffect(s: Store, who: Identity, fullName: string, email: string, password: string)
    requires ValidStore(s) && UserController.ProfileAccepted(s, who, fullName, email) && email != ""
    requires Verify(password, s[IndexOfId(s, who.id).value].password)
    ensures var t := UserController.UpdateProfile(s, who, fullName, email).store;
            && Me(t, who).response.status == 200
            && Me(t, who).response.body.user.email == NormalizeEmail(email)
            && Login(t, email, password).response.status == 200
  {
    var i := IndexOfId(s, who.id).value;
    var t := UserController.UpdateProfile(s, who, fullName, email).store;
    assert t == s[i := UserController.MergeProfile(s[i], fullName, email)];
    assert t[i].id == who.id;
    var k := IndexOfId(t, who.id).value;
    IdIsKey(t, k, i);
    assert t[i].email == NormalizeEmail(email) && Verify(password, t[i].password);
    assert CredentialsMatch(t, email, password);
  }
}
