/** The session store of `frontend/src/context/AuthProvider.jsx`: the signed
    in user kept in React state and mirrored in `localStorage` under the keys
    `token` and `user`, which `api.login` and `api.updateProfile` also write. */
module AuthProvider {
  import opened Common
  import opened Accounts
  import opened Http
  import AuthController

  /** A `localStorage` value. A token and a serialised user are kept
      abstract; `Raw` is any other text: the empty string (falsy) or text
      `JSON.parse` rejects. */
  datatype Stored = TokenText(token: Token) | UserJson(user: AccountView) | Raw(text: string)

  type Storage = map<string, Stored>

  /** JavaScript truthiness of a stored string: only the empty string is falsy. */
  predicate Truthy(v: Stored) {
    v != Raw("")
  }

  /** The lazy initial state: the parsed `user` when both `token` and `user`
      are present and non-empty, otherwise null; a parse failure is null. */
  function InitialUser(st: Storage): (r: Option<AccountView>)
    ensures r.Some? ==> "token" in st && Truthy(st["token"]) && "user" in st && st["user"] == UserJson(r.value)
    ensures "token" !in st || "user" !in st ==> r.None?
    ensures "token" in st && Truthy(st["token"]) && "user" in st && st["user"].UserJson? ==> r == Some(st["user"].user)
  {
    if "token" in st && Truthy(st["token"]) && "user" in st && Truthy(st["user"]) then
      match st["user"]
      case UserJson(u) => Some(u)
      case TokenText(_) => None
      case Raw(_) => None
    else None
  }

  datatype Session = Session(user: Option<AccountView>, storage: Storage)

  /** Mounting the provider over whatever the browser kept. */
  function Start(storage: Storage): (s: Session)
    ensures s.storage == storage
  {
    Session(InitialUser(storage), storage)
  }

  /** The invariant: reloading the page restores the same user. */
  predicate Consistent(s: Session) {
    s.user == InitialUser(s.storage)
  }

  /** `login`: `api.login` stores the token and the user on a 2xx answer and
      the state takes the returned user; any other answer throws, leaving
      state and storage as they were. */
  function Login(s: Session, answer: Response): (r: Session)
    ensures 200 <= answer.status < 300 && answer.body.TokenBody? ==>
              && r.user == Some(answer.body.user)
              && r.storage == s.storage["token" := TokenText(answer.body.token)]["user" := UserJson(answer.body.user)]
    ensures !(200 <= answer.status < 300 && answer.body.TokenBody?) ==> r == s
  {
    if 200 <= answer.status < 300 && answer.body.TokenBody? then
      var stored := s.storage["token" := TokenText(answer.body.token)]["user" := UserJson(answer.body.user)];
      Session(Some(answer.body.user), stored)
    else s
  }

  /** `logout`: both keys removed, the user cleared, nothing else touched. */
  function Logout(s: Session): (r: Session)
    ensures r.user.None?
    ensures "token" !in r.storage && "user" !in r.storage
    ensures forall k | k in s.storage && k != "token" && k != "user" :: k in r.storage && r.storage[k] == s.storage[k]
    ensures r.storage.Keys <= s.storage.Keys
  {
    Session(None, s.storage - {"token", "user"})
  }

  /** `updateUser`: the state and the stored `user` take the same value;
      `token` is left alone. */
  function UpdateUser(s: Session, u: AccountView): (r: Session)
    ensures r.user == Some(u) && "user" in r.storage && r.storage["user"] == UserJson(u)
    ensures "token" in r.storage <==> "token" in s.storage
    ensures "token" in s.storage ==> r.storage["token"] == s.storage["token"]
  {
    Session(Some(u), s.storage["user" := UserJson(u)])
  }

  /** After a successful login a reload restores the user just signed in;
      a failed login leaves a consistent session consistent. */
  lemma LoginKeepsConsistent(s: Session, answer: Response)
    ensures 200 <= answer.status < 300 && answer.body.TokenBody? ==> Consistent(Login(s, answer))
    ensures Consistent(s) ==> Consistent(Login(s, answer))
  {
  }

  /** After logging out a reload stays signed out. */
  lemma LogoutKeepsConsistent(s: Session)
    ensures Consistent(Logout(s))
  {
  }

  /** While signed in, updating the user survives a reload; while signed
      out with no token it would not. */
  lemma UpdateUserKeepsConsistent(s: Session, u: AccountView)
    ensures Consistent(s) && s.user.Some? ==> Consistent(UpdateUser(s, u))
    ensures "token" !in s.storage ==> InitialUser(UpdateUser(s, u).storage).None?
  {
  }

  /** What the app can do to the session. Profile updates come only from
      the profile page, which is rendered only while someone is signed in. */
  datatype Event = LoginAnswer(answer: Response) | LogoutClick | ProfileSaved(user: AccountView)

  function Step(s: Session, e: Event): Session {
    match e
    case LoginAnswer(a) => Login(s, a)
    case LogoutClick => Logout(s)
    case ProfileSaved(u) => if s.user.Some? then UpdateUser(s, u) else s
  }

  function Run(s: Session, events: seq<Event>): Session
    decreases |events|
  {
    if |events| == 0 then s else Run(Step(s, events[0]), events[1..])
  }

  /** From the first mount on, whatever happens, a reload restores the
      session the app is showing. */
  lemma {:induction false} SessionSurvivesReload(storage: Storage, events: seq<Event>)
    ensures Consistent(Run(Start(storage), events))
  {
    RunKeepsConsistent(Start(storage), events);
  }

  lemma {:induction false} RunKeepsConsistent(s: Session, events: seq<Event>)
    requires Consistent(s)
    ensures Consistent(Run(s, events))
    decreases |events|
  {
    if |events| > 0 {
      var e := events[0];
      match e {
        case LoginAnswer(a) => LoginKeepsConsistent(s, a);
        case LogoutClick => LogoutKeepsConsistent(s);
        case ProfileSaved(u) => UpdateUserKeepsConsistent(s, u);
      }
      RunKeepsConsistent(Step(s, e), events[1..]);
    }
  }

  /** Signing in through the server: matching credentials put that
      account's view in the session and in storage; anything else leaves
      the session as it was. */
  lemma LoginThroughServer(store: Store, email: string, password: string, s: Session)
    requires ValidStore(store)
    ensures AuthController.CredentialsMatch(store, email, password) ==>
              exists i | 0 <= i < |store| ::
                && store[i].email == NormalizeEmail(email)
                && Login(s, AuthController.Login(store, email, password).response).user == Some(View(store[i]))
    ensures !AuthController.CredentialsMatch(store, email, password) ==>
              Login(s, AuthController.Login(store, email, password).response) == s
  {
  }
}
