/** The routers of `backend/routes/auth.js` and `backend/routes/users.js`,
    mounted as `backend/server.js` mounts them: a table from method and path
    to an ordered chain of guards and a handler, and the dispatch that runs
    the chain and then the handler. */
module Routes {
  import opened Common
  import opened Accounts
  import opened Http
  import opened Gate
  import AuthController
  import UserController

  datatype Method = Get | Post | Put | Patch | Delete

  /** A path pattern segment: a literal, or a `:param` that matches any
      non-empty segment. */
  datatype Segment = Lit(text: string) | Param

  datatype Guard = Authenticate | AdminOnly

  datatype Action =
    | ServerUp
    | SignUp | LogIn | CurrentUser | LogOut
    | ListUsers | SetStatus | EditProfile | SetPassword

  datatype Route = Route(verb: Method, pattern: seq<Segment>, guards: seq<Guard>, action: Action)

  /** Every route of the application in registration order: the health
      check of `backend/server.js`; then `backend/routes/auth.js`, mounted at
      `/api/auth` (positions 1 to 4); then `backend/routes/users.js`,
      mounted at `/api/users` (positions 5 to 8). */
  const Table: seq<Route> := [
    Route(Get, [], [], ServerUp),
    Route(Post, [Lit("api"), Lit("auth"), Lit("signup")], [], SignUp),
    Route(Post, [Lit("api"), Lit("auth"), Lit("login")], [], LogIn),
    Route(Get, [Lit("api"), Lit("auth"), Lit("me")], [Authenticate], CurrentUser),
    Route(Post, [Lit("api"), Lit("auth"), Lit("logout")], [Authenticate], LogOut),
    Route(Get, [Lit("api"), Lit("users")], [Authenticate, AdminOnly], ListUsers),
    Route(Patch, [Lit("api"), Lit("users"), Param, Lit("status")], [Authenticate, AdminOnly], SetStatus),
    Route(Put, [Lit("api"), Lit("users"), Lit("profile")], [Authenticate], EditProfile),
    Route(Put, [Lit("api"), Lit("users"), Lit("password")], [Authenticate], SetPassword)
  ]

  /** The positions of the auth router's routes in `Table`. */
  predicate FromAuthRouter(k: int) {
    1 <= k <= 4
  }

  /** The path segments (between the slashes) match the pattern. */
  predicate Matches(pattern: seq<Segment>, path: seq<string>) {
    && |pattern| == |path|
    && forall k | 0 <= k < |path| ::
         match pattern[k]
         case Lit(t) => path[k] == t
         case Param => path[k] != ""
  }

  predicate RouteMatches(r: Route, verb: Method, path: seq<string>) {
    r.verb == verb && Matches(r.pattern, path)
  }

  /** Express's first-match dispatch: the position of the first route in
      `routes` that takes the request. */
  function FirstMatch(routes: seq<Route>, verb: Method, path: seq<string>): (r: Option<nat>)
    ensures r.Some? ==> r.value < |routes| && RouteMatches(routes[r.value], verb, path)
    ensures r.Some? ==> forall k | 0 <= k < r.value :: !RouteMatches(routes[k], verb, path)
    ensures r.None? <==> forall k | 0 <= k < |routes| :: !RouteMatches(routes[k], verb, path)
  {
    if |routes| == 0 then None
    else if RouteMatches(routes[0], verb, path) then Some(0)
    else match FirstMatch(routes[1..], verb, path)
      case None => None
      case Some(k) => Some(k + 1)
  }

  function Resolve(verb: Method, path: seq<string>): (r: Option<Route>)
    ensures r.Some? <==> exists k | 0 <= k < |Table| :: RouteMatches(Table[k], verb, path)
    ensures r.Some? ==> r.value in Table && RouteMatches(r.value, verb, path)
  {
    match FirstMatch(Table, verb, path)
    case None => None
    case Some(k) => Some(Table[k])
  }

  /** The outcome of a guard chain: the request goes on to the handler, with
      the identity the gate attached if any, or a guard has answered it. */
  datatype Admission = Admitted(who: Option<Identity>) | Refused(response: Response)

  /** Authentication, if the chain has it, runs first and only once. */
  predicate AuthenticatesOnlyFirst(guards: seq<Guard>) {
    forall k | 0 < k < |guards| :: guards[k] != Authenticate
  }

  /** Runs the guards in order; the first that stops the request answers it. */
  function RunGuards(guards: seq<Guard>, c: Credential, who: Option<Identity>): (r: Admission)
    ensures guards == [] ==> r == Admitted(who)
    ensures r.Admitted? && Authenticate in guards ==> c.Valid? && r.who == Some(c.token.claims)
    ensures r.Admitted? && Authenticate !in guards ==> r.who == who
    ensures r.Admitted? && AdminOnly in guards && AuthenticatesOnlyFirst(guards) ==>
              r.who.Some? && r.who.value.role == Admin
    ensures |guards| > 0 && guards[0] == Authenticate && c.Missing? ==> r == Refused(Error(401, TokenRequired))
    ensures |guards| > 0 && guards[0] == Authenticate && c.Invalid? ==> r == Refused(Error(403, TokenRejected))
    decreases |guards|
  {
    if guards == [] then Admitted(who)
    else
      var rest := guards[1..];
      assert guards == [guards[0]] + rest;
      match guards[0]
      case Authenticate =>
        (match AuthenticateToken(c)
         case Stop(response) => Refused(response)
         case Pass(id) => RunGuards(rest, c, Some(id)))
      case AdminOnly =>
        (match who
         case None => Refused(Error(403, AdminRequired))
         case Some(id) =>
           match RequireAdmin(id)
           case Stop(response) => Refused(response)
           case Pass(_) => RunGuards(rest, c, who))
  }

  /** The query string of `GET /api/users`, each value as `parseInt` reads it. */
  datatype Query = Query(page: Option<int>, limit: Option<int>)

  /** A request: method, path segments, what the Authorization header holds,
      the query and the JSON body's string fields. */
  datatype Request = Request(verb: Method, path: seq<string>, credential: Credential,
                             query: Query, body: map<string, string>)

  /** A body field, with an absent field read as the empty string: the
      handlers test fields for truthiness, so both take the same branch. */
  function Field(body: map<string, string>, key: string): (v: string)
    ensures key in body ==> v == body[key]
    ensures key !in body ==> v == ""
  {
    if key in body then body[key] else ""
  }

  /** The actions that read the identity the gate attached. */
  predicate NeedsIdentity(a: Action) {
    !(a.ServerUp? || a.SignUp? || a.LogIn?)
  }

  /** Every route whose handler reads `req.user` authenticates first. */
  lemma TableAuthenticatesIdentityReaders()
    ensures forall r | r in Table && NeedsIdentity(r.action) :: Authenticate in r.guards
  {
  }

  /** Calls the handler of `action`. `newId`, `now` and `salt` stand for the
      ObjectId, the clock and the bcrypt salt a signup or a password change
      would draw. */
  function Dispatch(action: Action, s: Store, who: Option<Identity>, req: Request,
                    newId: string, now: nat, salt: nat): (r: Reply)
    requires NeedsIdentity(action) ==> who.Some?
    requires action.SetStatus? ==> |req.path| == 4
    ensures action.ServerUp? ==> r == Reply(Response(200, MessageBody("Server is running")), s)
    ensures r.response.status != 200 && r.response.status != 201 ==> r.store == s
    ensures ValidStore(s) ==> ValidStore(r.store)
  {
    var body := req.body;
    match action
    case ServerUp => Reply(Response(200, MessageBody("Server is running")), s)
    case SignUp =>
      AuthController.Signup(s, Field(body, "email"), Field(body, "password"), Field(body, "fullName"), newId, now, salt)
    case LogIn => AuthController.Login(s, Field(body, "email"), Field(body, "password"))
    case CurrentUser => AuthController.Me(s, who.value)
    case LogOut => AuthController.Logout(s, who.value)
    case ListUsers => UserController.GetUsers(s, req.query.page, req.query.limit)
    case SetStatus => UserController.UpdateStatus(s, who.value, req.path[2], Field(body, "status"))
    case EditProfile => UserController.UpdateProfile(s, who.value, Field(body, "fullName"), Field(body, "email"))
    case SetPassword =>
      UserController.ChangePassword(s, who.value, Field(body, "currentPassword"), Field(body, "newPassword"), salt)
  }

  // One lemma per handler the properties below reach, so that each proof
  // unfolds `Dispatch` for one action only.

  lemma DispatchesListUsers(s: Store, who: Option<Identity>, req: Request, newId: string, now: nat, salt: nat)
    requires who.Some?
    ensures Dispatch(ListUsers, s, who, req, newId, now, salt) == UserController.GetUsers(s, req.query.page, req.query.limit)
  {
  }

  lemma DispatchesSetStatus(s: Store, who: Option<Identity>, req: Request, newId: string, now: nat, salt: nat)
    requires who.Some? && |req.path| == 4
    ensures Dispatch(SetStatus, s, who, req, newId, now, salt) == UserController.UpdateStatus(s, who.value, req.path[2], Field(req.body, "status"))
  {
  }

  lemma DispatchesEditProfile(s: Store, who: Option<Identity>, req: Request, newId: string, now: nat, salt: nat)
    requires who.Some?
    ensures Dispatch(EditProfile, s, who, req, newId, now, salt) == UserController.UpdateProfile(s, who.value, Field(req.body, "fullName"), Field(req.body, "email"))
  {
  }

  lemma DispatchesSetPassword(s: Store, who: Option<Identity>, req: Request, newId: string, now: nat, salt: nat)
    requires who.Some?
    ensures Dispatch(SetPassword, s, who, req, newId, now, salt) == UserController.ChangePassword(s, who.value, Field(req.body, "currentPassword"), Field(req.body, "newPassword"), salt)
  {
  }

  lemma DispatchesCurrentUser(s: Store, who: Option<Identity>, req: Request, newId: string, now: nat, salt: nat)
    requires who.Some?
    ensures Dispatch(CurrentUser, s, who, req, newId, now, salt) == AuthController.Me(s, who.value)
  {
  }

  /** Express's answer when no route takes the request. */
  const NoRoute := Response(404, MessageBody("Not Found"))

  /** The application: find the route, run its guards, then its handler. */
  function Serve(s: Store, req: Request, newId: string, now: nat, salt: nat): (r: Reply)
    ensures r.response.status != 200 && r.response.status != 201 ==> r.store == s
    ensures ValidStore(s) ==> ValidStore(r.store)
    ensures Resolve(req.verb, req.path).None? ==> r == Reply(NoRoute, s)
    ensures Resolve(req.verb, req.path).Some?
              && RunGuards(Resolve(req.verb, req.path).value.guards, req.credential, None).Refused? ==>
              r == Reply(RunGuards(Resolve(req.verb, req.path).value.guards, req.credential, None).response, s)
  {
    match Resolve(req.verb, req.path)
    case None => Reply(NoRoute, s)
    case Some(route) =>
      match RunGuards(route.guards, req.credential, None)
      case Refused(response) => Reply(response, s)
      case Admitted(who) =>
        AdmittedReadyForHandler(route, req.verb, req.path, req.credential);
        Dispatch(route.action, s, who, req, newId, now, salt)
  }

  /** A route of the table that admits a request can run its handler: the
      identity is there if the handler reads it, and the `:id` segment is
      there if the handler takes it. */
  lemma AdmittedReadyForHandler(route: Route, verb: Method, path: seq<string>, c: Credential)
    requires route in Table && RouteMatches(route, verb, path)
    ensures var g := RunGuards(route.guards, c, None);
            g.Admitted? && NeedsIdentity(route.action) ==> g.who.Some?
    ensures route.action.SetStatus? ==> |path| == 4
  {
    TableAuthenticatesIdentityReaders();
    if route.action.SetStatus? {
      assert route == Table[6];
    }
  }

  // ---------------------------------------------------------------- properties

  /** A route of the table that takes the request is the one resolved:
      no other route takes it, so no earlier one shadows it. */
  lemma ResolvesTo(k: nat, verb: Method, path: seq<string>)
    requires k < |Table| && RouteMatches(Table[k], verb, path)
    ensures Resolve(verb, path) == Some(Table[k])
  {
    var m := FirstMatch(Table, verb, path);
    assert m.Some?;
    var j := m.value;
    assert Resolve(verb, path) == Some(Table[j]);
    if j < k {
      TableUnambiguous(j, k, verb, path);
    } else if k < j {
      TableUnambiguous(k, j, verb, path);
    }
  }

  /** A request that a route admits gets that route's handler's answer. */
  lemma ServeRunsHandler(s: Store, req: Request, k: nat, who: Option<Identity>, newId: string, now: nat, salt: nat)
    requires k < |Table| && RouteMatches(Table[k], req.verb, req.path)
    requires RunGuards(Table[k].guards, req.credential, None) == Admitted(who)
    ensures NeedsIdentity(Table[k].action) ==> who.Some?
    ensures Table[k].action.SetStatus? ==> |req.path| == 4
    ensures Serve(s, req, newId, now, salt) == Dispatch(Table[k].action, s, who, req, newId, now, salt)
  {
    ResolvesTo(k, req.verb, req.path);
    AdmittedReadyForHandler(Table[k], req.verb, req.path, req.credential);
  }

  /** The request reaches `action` through exactly the guards `guards`. */
  predicate Routed(verb: Method, path: seq<string>, guards: seq<Guard>, action: Action) {
    var r := Resolve(verb, path);
    r.Some? && r.value.guards == guards && r.value.action == action
  }

  /** GET /api/users: authentication, then the admin check, then `getUsers`. */
  lemma ListUsersRoute()
    ensures Routed(Get, ["api", "users"], [Authenticate, AdminOnly], ListUsers)
  {
    ResolvesTo(5, Get, ["api", "users"]);
  }

  /** PATCH /api/users/:id/status: authentication, then the admin check, then `updateStatus`, for every non-empty id. */
  lemma SetStatusRoute(id: string)
    requires id != ""
    ensures Routed(Patch, ["api", "users", id, "status"], [Authenticate, AdminOnly], SetStatus)
  {
    ResolvesTo(6, Patch, ["api", "users", id, "status"]);
  }

  /** PUT /api/users/profile: authentication only, then `updateProfile`. */
  lemma EditProfileRoute()
    ensures Routed(Put, ["api", "users", "profile"], [Authenticate], EditProfile)
  {
    ResolvesTo(7, Put, ["api", "users", "profile"]);
  }

  /** PUT /api/users/password: authentication only, then `changePassword`. */
  lemma SetPasswordRoute()
    ensures Routed(Put, ["api", "users", "password"], [Authenticate], SetPassword)
  {
    ResolvesTo(8, Put, ["api", "users", "password"]);
  }

  /** POST /api/auth/signup: no guard. */
  lemma SignUpRoute()
    ensures Routed(Post, ["api", "auth", "signup"], [], SignUp)
  {
    ResolvesTo(1, Post, ["api", "auth", "signup"]);
  }

  /** POST /api/auth/login: no guard. */
  lemma LogInRoute()
    ensures Routed(Post, ["api", "auth", "login"], [], LogIn)
  {
    ResolvesTo(2, Post, ["api", "auth", "login"]);
  }

  /** GET /api/auth/me: authentication only. */
  lemma MeRoute()
    ensures Routed(Get, ["api", "auth", "me"], [Authenticate], CurrentUser)
  {
    ResolvesTo(3, Get, ["api", "auth", "me"]);
  }

  /** POST /api/auth/logout: authentication only. */
  lemma LogOutRoute()
    ensures Routed(Post, ["api", "auth", "logout"], [Authenticate], LogOut)
  {
    ResolvesTo(4, Post, ["api", "auth", "logout"]);
  }

  /** In every chain authentication comes first, so a request to an admin
      route without a good token fails at authentication, never at the
      admin check; and no route of the auth router requires an admin. */
  lemma AuthenticationPrecedesAdmin()
    ensures forall r | r in Table :: AuthenticatesOnlyFirst(r.guards)
    ensures forall r | r in Table && AdminOnly in r.guards :: r.guards[0] == Authenticate
    ensures forall k | 0 <= k < |Table| && FromAuthRouter(k) :: AdminOnly !in Table[k].guards
  {
  }

  /** At most one route takes any request, so registration order never
      decides between two routes. */
  lemma TableUnambiguous(i: int, j: int, verb: Method, path: seq<string>)
    requires 0 <= i < j < |Table|
    ensures !(RouteMatches(Table[i], verb, path) && RouteMatches(Table[j], verb, path))
  {
    if RouteMatches(Table[i], verb, path) && |path| == 3 {
      assert path[2] == Table[i].pattern[2].text;
    }
  }

  /** On a guarded route, a missing token is answered 401 and a token that
      fails verification 403, whatever the body and query, and nothing is stored. */
  lemma BadTokenRefused(s: Store, req: Request, newId: string, now: nat, salt: nat)
    requires Resolve(req.verb, req.path).Some? && Resolve(req.verb, req.path).value.guards != []
    ensures req.credential.Missing? ==> Serve(s, req, newId, now, salt) == Reply(Error(401, TokenRequired), s)
    ensures req.credential.Invalid? ==> Serve(s, req, newId, now, salt) == Reply(Error(403, TokenRejected), s)
  {
    AuthenticationPrecedesAdmin();
  }

  /** A genuine token of a non-admin on an admin route is answered 403
      "Admin access required", whatever the body and query, and nothing is stored. */
  lemma NonAdminRefused(s: Store, req: Request, newId: string, now: nat, salt: nat)
    requires Resolve(req.verb, req.path).Some? && AdminOnly in Resolve(req.verb, req.path).value.guards
    requires req.credential.Valid? && req.credential.token.claims.role == User
    ensures Serve(s, req, newId, now, salt) == Reply(Error(403, AdminRequired), s)
  {
    AuthenticationPrecedesAdmin();
    var route := Resolve(req.verb, req.path).value;
    assert route.guards == [Authenticate, AdminOnly];
  }

  /** An admin's token on GET /api/users reaches `getUsers` with the query. */
  lemma AdminReachesListing(s: Store, req: Request, newId: string, now: nat, salt: nat)
    requires req.verb == Get && req.path == ["api", "users"]
    requires req.credential.Valid? && req.credential.token.claims.role == Admin
    ensures Serve(s, req, newId, now, salt) == UserController.GetUsers(s, req.query.page, req.query.limit)
  {
    var who := Some(req.credential.token.claims);
    assert RunGuards(Table[5].guards, req.credential, None) == Admitted(who);
    ServeRunsHandler(s, req, 5, who, newId, now, salt);
    assert Table[5].action == ListUsers;
    DispatchesListUsers(s, who, req, newId, now, salt);
  }

  /** An admin's token on PATCH /api/users/:id/status reaches `updateStatus`
      with the id from the path and the body's status. */
  lemma AdminReachesStatusToggle(s: Store, req: Request, id: string, newId: string, now: nat, salt: nat)
    requires id != "" && req.verb == Patch && req.path == ["api", "users", id, "status"]
    requires req.credential.Valid? && req.credential.token.claims.role == Admin
    ensures Serve(s, req, newId, now, salt)
              == UserController.UpdateStatus(s, req.credential.token.claims, id, Field(req.body, "status"))
  {
    var who := Some(req.credential.token.claims);
    assert RunGuards(Table[6].guards, req.credential, None) == Admitted(who);
    ServeRunsHandler(s, req, 6, who, newId, now, salt);
    assert Table[6].action == SetStatus;
    DispatchesSetStatus(s, who, req, newId, now, salt);
  }

  /** Any genuine token, of either role, reaches `updateProfile` as its holder. */
  lemma TokenReachesProfile(s: Store, req: Request, newId: string, now: nat, salt: nat)
    requires req.verb == Put && req.path == ["api", "users", "profile"] && req.credential.Valid?
    ensures Serve(s, req, newId, now, salt)
              == UserController.UpdateProfile(s, req.credential.token.claims,
                                              Field(req.body, "fullName"), Field(req.body, "email"))
  {
    var who := Some(req.credential.token.claims);
    assert RunGuards(Table[7].guards, req.credential, None) == Admitted(who);
    ServeRunsHandler(s, req, 7, who, newId, now, salt);
    assert Table[7].action == EditProfile;
    DispatchesEditProfile(s, who, req, newId, now, salt);
  }

  /** Any genuine token, of either role, reaches `changePassword` as its holder. */
  lemma TokenReachesPassword(s: Store, req: Request, newId: string, now: nat, salt: nat)
    requires req.verb == Put && req.path == ["api", "users", "password"] && req.credential.Valid?
    ensures Serve(s, req, newId, now, salt)
              == UserController.ChangePassword(s, req.credential.token.claims, Field(req.body, "currentPassword"),
                                               Field(req.body, "newPassword"), salt)
  {
    var who := Some(req.credential.token.claims);
    assert RunGuards(Table[8].guards, req.credential, None) == Admitted(who);
    ServeRunsHandler(s, req, 8, who, newId, now, salt);
    assert Table[8].action == SetPassword;
    DispatchesSetPassword(s, who, req, newId, now, salt);
  }

  /** Any genuine token, of either role, reaches `/me` as its holder. */
  lemma TokenReachesMe(s: Store, req: Request, newId: string, now: nat, salt: nat)
    requires req.verb == Get && req.path == ["api", "auth", "me"] && req.credential.Valid?
    ensures Serve(s, req, newId, now, salt) == AuthController.Me(s, req.credential.token.claims)
  {
    var who := Some(req.credential.token.claims);
    assert RunGuards(Table[3].guards, req.credential, None) == Admitted(who);
    ServeRunsHandler(s, req, 3, who, newId, now, salt);
    assert Table[3].action == CurrentUser;
    DispatchesCurrentUser(s, who, req, newId, now, salt);
  }

  /** Signup is open: whatever the Authorization header holds, the request
      reaches the handler with the body's fields. */
  lemma SignupIsOpen(s: Store, req: Request, newId: string, now: nat, salt: nat)
    requires req.verb == Post && req.path == ["api", "auth", "signup"]
    ensures Serve(s, req, newId, now, salt)
              == AuthController.Signup(s, Field(req.body, "email"), Field(req.body, "password"),
                                       Field(req.body, "fullName"), newId, now, salt)
  {
    ServeRunsHandler(s, req, 1, None, newId, now, salt);
  }

  /** Login is open: whatever the Authorization header holds, the request
      reaches the handler with the body's fields. */
  lemma LoginIsOpen(s: Store, req: Request, newId: string, now: nat, salt: nat)
    requires req.verb == Post && req.path == ["api", "auth", "login"]
    ensures Serve(s, req, newId, now, salt) == AuthController.Login(s, Field(req.body, "email"), Field(req.body, "password"))
  {
    ServeRunsHandler(s, req, 2, None, newId, now, salt);
  }
}
