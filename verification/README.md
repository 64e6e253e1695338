# Account management, modelled in Dafny

This project models the account core of a small user-management application.
The application has an Express/Mongoose back end and a React front end.
The model covers:

- **The account collection** (`backend/models/User.js`). Records with a normalised, unique email, a bcrypt digest, a trimmed full name, a role (`admin`/`user`) and a status (`active`/`inactive`).
- **The user controller** (`backend/controllers/userController.js`):
  - the admin listing, paged and newest first;
  - the admin status toggle;
  - the self-service profile and password updates.
- **The auth endpoints** signup, login, `/me` and logout. Their controller is not part of this model, so their answers are the ones `backend/tests/auth.test.js` asserts.
- **The route table** of `backend/routes/auth.js` and `backend/routes/users.js`, mounted as `backend/server.js` mounts them. Each route is a method and path pattern with an ordered guard chain (`authenticateToken`, `requireAdmin`) in front of a handler. The token middleware is not part of this model either. Its three outcomes are fixed by the tests: no token, a rejected token, a genuine token.
- **The front end's pure logic**:
  - the signup and login form validators;
  - the profile page's initial values, Cancel button and password card;
  - the admin dashboard's search, statistics, pagination and row action;
  - `App.jsx`'s choice of screen;
  - the `AuthProvider` session and its `localStorage` mirror.

Every handler is a pure function from the collection and the request's inputs to a `Reply`: the JSON response together with the collection afterwards.

Clock, ObjectId generation and bcrypt's random salt are parameters (`now`, `newId`, `salt`). A failed `save()` of a record that breaks the schema or a unique index is the handler's 500 answer.

Modules, in dependency order:

- `Common` and `Text` (text.dfy): `Option`, and JavaScript's `\s`, `trim()`, `toLowerCase()` and `includes()`.
- `Validators` (validators.dfy): the email pattern, the server's password policy, and the pages' password pattern.
- `Accounts` (accounts.dfy): the record, the schema, the collection invariant `ValidStore`, and `findById`/`findOne`/`save`.
- `Http` (http.dfy): identities, tokens, response bodies.
- `Gate` and `AuthController` (auth.dfy).
- `UserController` (users.dfy).
- `Routes` (routes.dfy).
- `FormErrors`, `SignupPage` and `LoginPage` (forms.dfy).
- `UserProfile` (profile.dfy).
- `AdminDashboard` (dashboard.dfy).
- `AppShell` (app.dfy).
- `AuthProvider` (session.dfy).

Three behaviours of the code are worth noting:

- The dashboard's statistics cards count only the rows of the current page.
- The profile page's password form never contacts the server.
- A signed-in administrator cannot reach the profile page.

The last two are under Findings.

## Model

| member | source | states |
|---|---|---|
| Text.TrimStart | frontend/src/pages/SignupPage.jsx:21 | the result is a suffix of the input; everything cut is white space; the result does not start with white space |
| Text.TrimEnd | frontend/src/pages/SignupPage.jsx:21 | the result is a prefix of the input; everything cut is white space; the result does not end with white space |
| Text.Trim | frontend/src/pages/SignupPage.jsx:21 | `trim()` yields a slice of the input that cuts only white space and is itself trimmed |
| Text.TrimStartThenEnd | frontend/src/pages/SignupPage.jsx:21 | cutting leading then trailing white space leaves a contiguous trimmed slice |
| Text.TrimEmptyIffBlank | frontend/src/pages/SignupPage.jsx:21 | `s.trim()` is empty exactly when every character of `s` is white space |
| Text.TrimOfTrimmed | backend/models/User.js:18 | trimming a string that is already trimmed leaves it unchanged |
| Text.TrimFixedIffTrimmed | backend/models/User.js:18 | a string is a fixpoint of trim exactly when it neither starts nor ends with white space |
| Text.TrimIdempotent | backend/models/User.js:18 | trimming twice is trimming once |
| Text.ToLower | frontend/src/pages/AdminDashboard.jsx:52 | lower-casing keeps the length and maps each character on its own, independently of its neighbours |
| Text.ToLowerIsLowerCase | backend/models/User.js:8 | the lower-cased string contains no upper-case letter |
| Text.ToLowerFixedIffLowerCase | backend/models/User.js:8 | lower-casing leaves a string alone exactly when it has no upper-case letter |
| Text.LowerKeepsSpace | frontend/src/pages/AdminDashboard.jsx:49-52 | lower-casing a character neither creates nor removes white space |
| Text.LowerTrimCommute | backend/models/User.js:8-9 | lower-casing then trimming equals trimming then lower-casing |
| Text.LowerTrimStartCommute | backend/models/User.js:8-9 | lower-casing commutes with cutting leading white space |
| Text.LowerTrimEndCommute | backend/models/User.js:8-9 | lower-casing commutes with cutting trailing white space |
| Text.ToLowerIdempotent | frontend/src/pages/AdminDashboard.jsx:52-56 | lower-casing twice is lower-casing once |
| Validators.ValidEmailNotBlank | frontend/src/pages/SignupPage.jsx:29 | a string matching `\S+@\S+\.\S+` is never blank |
| Validators.RestOfLine | frontend/src/pages/SignupPage.jsx:37 | the longest line-terminator-free prefix, which is what `.*` can reach |
| Validators.OneLineClassesHaveAll | frontend/src/pages/SignupPage.jsx:37 | a password the page's lookahead pattern accepts has a lower-case letter, an upper-case letter and a digit |
| Validators.OneLineClassesOnSingleLine | frontend/src/pages/SignupPage.jsx:37 | for a single-line password the lookahead pattern is exactly the three-class test |
| Validators.RestOfLineWhole | frontend/src/pages/SignupPage.jsx:37 | a string without line terminators is its own rest of line |
| Validators.PasswordPolicyExamples | backend/tests/auth.test.js:48-58 | "Test@123" meets the server policy; "weak" and the one-class-missing passwords do not |
| Validators.EmailPatternExamples | backend/tests/auth.test.js:35-45 | "test@example.com" matches the email pattern; "invalid-email" does not |
| Accounts.ParseStatus | backend/controllers/userController.js:46-48 | a status is recognised exactly when it is "active" or "inactive", and names the status it parses to |
| Accounts.ParseStatusName | backend/controllers/userController.js:46 | parsing a status's name gives back that status |
| Accounts.Hash | backend/controllers/userController.js:147-153 | a digest verifies the password it was made from and no other |
| Accounts.NormalizeGivesNormal | backend/models/User.js:4-10 | the stored email is lower case and trimmed |
| Accounts.NormalEmailIsFixed | backend/models/User.js:4-10 | normalising leaves an email alone exactly when it is already lower case and trimmed |
| Accounts.NormalizeIdempotent | backend/models/User.js:4-10 | normalising a stored email changes nothing |
| Accounts.NormalizedValidEmailNotEmpty | backend/models/User.js:4-10 | a pattern-matching email never normalises to the empty string, so the required check passes |
| Accounts.NewAccount | backend/models/User.js:3-35 | a new record gets role user, status active, no last login, the normalised email and the trimmed name; valid inputs give a well-formed record |
| Accounts.NewAccountFields | backend/models/User.js:4-19 | a non-blank name trims to something non-empty; a valid email normalises to something non-empty and normal |
| Accounts.IndexOfId | backend/controllers/userController.js:50-53 | `findById` finds a record with that id, and finds none exactly when no record has it |
| Accounts.IndexOfEmail | backend/tests/auth.test.js:61-80 | `findOne` by email finds a record with that email, and none exactly when none has it |
| Accounts.IdIsKey | backend/models/User.js:3-35 | in a valid collection at most one record has a given id |
| Accounts.Save | backend/models/User.js:4-29 | `save()` replaces the record exactly when it satisfies the schema and clashes with no other record's id or email, and keeps the collection valid |
| Accounts.ReplaceKeepsValid | backend/models/User.js:7 | replacing a record with a well-formed, non-clashing one keeps the collection valid |
| Accounts.Insert | backend/models/User.js:4-29 | inserting appends exactly when the record satisfies the schema and clashes with nothing, and keeps the collection valid |
| Accounts.AppendKeepsValid | backend/models/User.js:7 | appending a well-formed, non-clashing record keeps the collection valid |
| Http.View | backend/controllers/userController.js:20-28 | the listing's view carries every field of the record but the password |
| Http.BriefView | backend/controllers/userController.js:65-71 | the update handlers' view carries id, email, name, role and status only |
| Gate.AuthenticateToken | backend/tests/auth.test.js:158-173 | no token gives 401 "Access token required"; a bad token gives 403 "Invalid or expired token"; a genuine one passes its claims on |
| Gate.RequireAdmin | backend/tests/auth.test.js:325-332 | only an admin identity passes; anyone else gets 403 "Admin access required" |
| AuthController.Signup | backend/tests/auth.test.js:20-80 | missing field, bad email and weak password give 400 and a taken email 409, with the collection unchanged; otherwise a user-role active account is appended and 201 returns its token; the collection stays valid |
| AuthController.Login | backend/tests/auth.test.js:95-130 | the right email and password give 200 "Login successful" with a token for that account; anything else gives the same 401 "Invalid credentials"; nothing is stored |
| AuthController.EmailIsKey | backend/models/User.js:7 | in a valid collection at most one record has a given email |
| AuthController.Me | backend/tests/auth.test.js:148-156 | the caller's own record as a password-free view, or 404 when it is gone |
| AuthController.Logout | backend/routes/auth.js:13 | logout acknowledges with 200 and stores nothing |
| AuthController.SecondSignupConflicts | backend/tests/auth.test.js:61-80 | a second signup with the same email up to case and white space gets 409, creates nothing, and exactly one account holds the email |
| AuthController.LoginAfterSignup | backend/tests/auth.test.js:95-106 | signing up then logging in with the same credentials gives a user-role token for the new account |
| AuthController.LoginTokenOpensMe | backend/tests/auth.test.js:148-156 | the token a login returns passes the gate, and `/me` answers with the account that logged in |
| AuthController.PasswordChangeTakesEffect | backend/tests/auth.test.js:235-246 | after a password change the new password logs in and a different old one is refused with 401 |
| AuthController.ProfileUpdateTakesEffect | backend/tests/auth.test.js:191-203 | after a profile update changing the email, `/me` shows the new email and the unchanged password logs in under it |
| UserController.InsertByAge | backend/controllers/userController.js:13 | inserting into a newest-first sequence keeps it newest first and adds exactly that record |
| UserController.SortNewestFirst | backend/controllers/userController.js:13 | the sort orders by creation time, newest first, and is a permutation of the collection |
| UserController.Window | backend/controllers/userController.js:14-15 | skip then limit yields the entries from the skip offset on, at most limit of them |
| UserController.CeilDiv | backend/controllers/userController.js:33 | `Math.ceil(n / d)`: the least multiple of a positive divisor covering n, and the mirror bound for a negative one |
| UserController.GetUsers | backend/controllers/userController.js:5-40 | page and limit default on NaN or 0; a negative skip is 500; otherwise the page holds the newest-first entries from the skip offset on, at most the limit of them, with page, limit and total; the page count `Math.ceil(total / limit)` covers the collection for a positive limit and is at most 0 for a negative one |
| UserController.PagesCoverListing | backend/controllers/userController.js:7-33 | with a positive limit every account appears on page k / limit + 1 at entry k mod limit, and that page is within totalPages |
| UserController.SortedOrderIsUnique | backend/controllers/userController.js:13 | when no two accounts share a `createdAt`, every newest-first arrangement of the collection is the modelled one, so the pages do not depend on how ties are broken |
| UserController.PageHolds | backend/controllers/userController.js:9-15 | a page whose offset plus m is inside the collection answers 200 with more than m rows |
| UserController.PageEntry | backend/controllers/userController.js:9-28 | entry m of a page is entry (page - 1) * limit + m of the newest-first ordering |
| UserController.PageWithinTotal | backend/controllers/userController.js:9-33 | a page that holds an entry is no further than totalPages |
| UserController.UpdateStatus | backend/controllers/userController.js:42-77 | a bad status is 400, an unknown id 404, the caller's own id 400; otherwise only that record's status changes and the message names the new status; the collection stays valid |
| UserController.KeysUnchanged | backend/controllers/userController.js:60-61 | a record keeping its id, email and name still passes `save()` |
| UserController.MergeProfile | backend/controllers/userController.js:93-106 | a given name is stored trimmed, a given email normalised, and every other field is kept |
| UserController.UpdateProfile | backend/controllers/userController.js:79-125 | no field is 400, a missing caller 404, a bad email 400, an email another account holds 409, a blank name never succeeds; otherwise only the caller's name and email change; the collection stays valid |
| UserController.ProfileSaveAccepted | backend/controllers/userController.js:93-109 | accepted inputs give a record `save()` takes, and a blank name gives one the schema refuses |
| UserController.ChangePassword | backend/controllers/userController.js:127-161 | missing fields 400, a weak new password 400, a missing caller 404, a wrong current password 401; otherwise only the caller's digest changes, to one of the new password; 200 happens only then |
| Routes.FirstMatch | backend/server.js:21-25 | the first route that takes the request, with no earlier route taking it, or none when no route does |
| Routes.Resolve | backend/server.js:21-25 | a route is found exactly when some route of the table takes the request |
| Routes.RunGuards | backend/routes/users.js:8 | the guards run in order; an admitted request behind authentication carries the token's claims, behind the admin check an admin identity; a missing or bad token is 401 or 403 |
| Routes.TableAuthenticatesIdentityReaders | backend/routes/users.js:8-16 | every route whose handler reads the caller's identity authenticates first |
| Routes.Dispatch | backend/routes/users.js:8-16 | the health check answers "Server is running"; any handler's non-2xx answer leaves the collection unchanged and every handler keeps it valid |
| Routes.Serve | backend/server.js:21-25 | an unknown route is 404; a refusing guard answers instead of the handler; nothing is stored unless the answer is 2xx; the collection stays valid |
| Routes.AdmittedReadyForHandler | backend/routes/users.js:10 | a route that admits a request gives its handler the identity and the `:id` segment it reads |
| Routes.ResolvesTo | backend/server.js:24-25 | a route of the table that takes the request is the one resolved, since no other route takes it |
| Routes.ServeRunsHandler | backend/routes/users.js:8-16 | a request a route's guards admit gets that route's handler's answer, with the identity and path segment the handler reads |
| Routes.ListUsersRoute | backend/routes/users.js:8 | GET /api/users runs authentication, then the admin check, then `getUsers` |
| Routes.SetStatusRoute | backend/routes/users.js:10 | PATCH /api/users/:id/status runs authentication, then the admin check, then `updateStatus`, for every id |
| Routes.EditProfileRoute | backend/routes/users.js:14 | PUT /api/users/profile runs authentication only, then `updateProfile` |
| Routes.SetPasswordRoute | backend/routes/users.js:16 | PUT /api/users/password runs authentication only, then `changePassword` |
| Routes.SignUpRoute | backend/routes/auth.js:7 | POST /api/auth/signup has no guard |
| Routes.LogInRoute | backend/routes/auth.js:9 | POST /api/auth/login has no guard |
| Routes.MeRoute | backend/routes/auth.js:11 | GET /api/auth/me runs authentication only |
| Routes.LogOutRoute | backend/routes/auth.js:13 | POST /api/auth/logout runs authentication only |
| Routes.AuthenticationPrecedesAdmin | backend/routes/users.js:8-10 | in every chain authentication comes first and only once, and no auth route requires an admin |
| Routes.TableUnambiguous | backend/routes/users.js:8-16 | no two routes of the table take the same request |
| Routes.BadTokenRefused | backend/tests/auth.test.js:158-173 | on any guarded route a missing token is 401 and a bad one 403, with nothing stored |
| Routes.NonAdminRefused | backend/tests/auth.test.js:325-354 | a user-role token on an admin route is 403 "Admin access required", with nothing stored |
| Routes.AdminReachesListing | backend/tests/auth.test.js:314-323 | an admin's token on GET /api/users reaches `getUsers` with the query |
| Routes.AdminReachesStatusToggle | backend/tests/auth.test.js:336-344 | an admin's token on the status route reaches `updateStatus` with the path's id and the body's status |
| Routes.TokenReachesProfile | backend/tests/auth.test.js:191-203 | any genuine token reaches `updateProfile` as its holder |
| Routes.TokenReachesPassword | backend/tests/auth.test.js:235-246 | any genuine token reaches `changePassword` as its holder |
| Routes.TokenReachesMe | backend/tests/auth.test.js:148-156 | any genuine token reaches `/me` as its holder |
| Routes.SignupIsOpen | backend/tests/auth.test.js:20-33 | signup reaches its handler whatever the Authorization header holds |
| Routes.LoginIsOpen | backend/tests/auth.test.js:95-106 | login reaches its handler whatever the Authorization header holds |
| FormErrors.EmailError | frontend/src/pages/SignupPage.jsx:27-31 | empty gives "Email is required", a non-matching email "Invalid email format", and no message exactly when the pattern matches |
| SignupPage.NameError | frontend/src/pages/SignupPage.jsx:21-25 | blank gives "Full name is required", otherwise under two characters gives the length message, otherwise none |
| SignupPage.PasswordError | frontend/src/pages/SignupPage.jsx:33-40 | empty, shorter than 8, and failing the class pattern each give their own message; none exactly when 8 long and matching |
| SignupPage.ConfirmError | frontend/src/pages/SignupPage.jsx:42-44 | a message exactly when the confirmation differs from the password |
| SignupPage.Validate | frontend/src/pages/SignupPage.jsx:18-48 | each field has an entry exactly when its own check fails, and there are no other keys |
| SignupPage.ValidateMessages | frontend/src/pages/SignupPage.jsx:18-44 | each entry is its field's own message |
| SignupPage.ValidIffEveryFieldPasses | frontend/src/pages/SignupPage.jsx:47 | the form is valid exactly when the name, email, password and confirmation all pass |
| SignupPage.Submit | frontend/src/pages/SignupPage.jsx:50-56 | the form is sent exactly when it is valid, unchanged |
| SignupPage.SubmittedFormPassesServerChecks | frontend/src/pages/SignupPage.jsx:50-56 | a form the page sends has every field, a matching email, a password meeting the server policy and a non-blank name |
| SignupPage.SignupBody | frontend/src/api.js:5-10 | the posted body carries the name, email and password the handler reads |
| SignupPage.SubmittedSignupCreatesAccount | frontend/src/pages/SignupPage.jsx:50-56 | a sent form with a fresh email creates exactly that account with 201 |
| LoginPage.Validate | frontend/src/pages/LoginPage.jsx:14-22 | the email check as on signup; the password only required; no other keys |
| LoginPage.ValidIffEmailAndPassword | frontend/src/pages/LoginPage.jsx:14-22 | the form is valid exactly when the email matches and a password is given |
| LoginPage.Submit | frontend/src/pages/LoginPage.jsx:24-30 | the credentials are sent exactly when the form is valid |
| LoginPage.WeakPasswordSubmitted | frontend/src/pages/LoginPage.jsx:19 | a weak password still reaches the server |
| UserProfile.InitialProfile | frontend/src/pages/UserProfile.jsx:10 | the form starts from the signed-in user's name and email, or empty strings |
| UserProfile.EditsKeepLastValues | frontend/src/pages/UserProfile.jsx:10 | each input holds what was last typed into it, or its starting value |
| UserProfile.CancelUndoesEdits | frontend/src/pages/UserProfile.jsx:102 | Cancel after any edits restores the signed-in user's name and email |
| UserProfile.PasswordErrors | frontend/src/pages/UserProfile.jsx:33-39 | "Password must be at least 8 characters" on the new password exactly when it is shorter than 8, "Passwords do not match" on the confirmation exactly when it differs, and nothing else |
| UserProfile.PasswordCardCleanIff | frontend/src/pages/UserProfile.jsx:40 | the card has no errors exactly when the new password is 8 long and confirmed |
| UserProfile.HandlePasswordChange | frontend/src/pages/UserProfile.jsx:31-56 | as written: never sends a request; the success toast shows exactly when the card is clean, clearing it; otherwise the errors show |
| UserProfile.PasswordChangeNeverSent | frontend/src/pages/UserProfile.jsx:45-49 | the test's change is reported done without a request; the corrected handler sends it |
| UserProfile.SubmitPasswordChange | frontend/src/api.js:73-88 | corrected: a clean card sends the change; success shows exactly when the server answers 200; otherwise the failure toast shows and the inputs stay |
| UserProfile.SuccessToastMeansChanged | frontend/src/pages/UserProfile.jsx:47-48 | the corrected success toast means the stored digest now verifies the new password, the current one was right, and no other record changed |
| UserProfile.CardLaxerThanPolicy | frontend/src/pages/UserProfile.jsx:34-36 | a card the page accepts can still be refused by the server's policy with 400 |
| AdminDashboard.Filter | frontend/src/pages/AdminDashboard.jsx:53-57 | the filter never lengthens the list |
| AdminDashboard.SearchFilter | frontend/src/pages/AdminDashboard.jsx:48-60 | a blank query shows every account; any query shows no more than are loaded |
| AdminDashboard.FilterMembership | frontend/src/pages/AdminDashboard.jsx:53-57 | an account is shown exactly when it is loaded and its name, email or role contains the query |
| AdminDashboard.FilterIsSubsequence | frontend/src/pages/AdminDashboard.jsx:53-57 | the shown accounts keep the listing's order |
| AdminDashboard.SkipHeadKeepsSubsequence | frontend/src/pages/AdminDashboard.jsx:53 | a subsequence of the tail is a subsequence of the whole |
| AdminDashboard.DropHeadKeepsSubsequence | frontend/src/pages/AdminDashboard.jsx:53 | dropping the first entry of a subsequence leaves a subsequence |
| AdminDashboard.FilterSplits | frontend/src/pages/AdminDashboard.jsx:53-57 | filtering two runs of accounts one after the other filters each on its own |
| AdminDashboard.SearchIgnoresCase | frontend/src/pages/AdminDashboard.jsx:52 | the search ignores the case of the query |
| AdminDashboard.CountStatus | frontend/src/pages/AdminDashboard.jsx:31 | the count is the number of rows whose status is the given one |
| AdminDashboard.ComputeStats | frontend/src/pages/AdminDashboard.jsx:30-33 | total is the row count, active counts active rows, and the difference is exactly the inactive rows |
| AdminDashboard.StatusesPartition | frontend/src/pages/AdminDashboard.jsx:32 | active and inactive rows add up to all rows |
| AdminDashboard.Load | frontend/src/pages/AdminDashboard.jsx:22-60 | after a load the rows are the answer's, a blank search shows them all and no search shows more, the page count is the answer's or 1 when it is missing or 0, and the cards count the rows and the active ones |
| AdminDashboard.LoadShowsMatches | frontend/src/pages/AdminDashboard.jsx:22-60 | after a load the table shows exactly the returned rows that match the search box (all when it is blank), in the server's order |
| AdminDashboard.LoadFromServer | frontend/src/api.js:34-41 | from the server the page count is at least 1 and covers the collection, but the cards count at most ten rows, fewer than the collection when it is larger |
| AdminDashboard.HandlePageChange | frontend/src/pages/AdminDashboard.jsx:82-87 | the page moves exactly to a number within 1 to totalPages, and otherwise stays |
| AdminDashboard.PageSlots | frontend/src/pages/AdminDashboard.jsx:299-323 | one slot per page number, each chosen by that number alone |
| AdminDashboard.SlotsShape | frontend/src/pages/AdminDashboard.jsx:302-322 | buttons exactly for the first, the last and the neighbours of the current page, only the current one highlighted; ellipses exactly two away |
| AdminDashboard.ButtonClicksAccepted | frontend/src/pages/AdminDashboard.jsx:310 | clicking any numbered button moves to that page |
| AdminDashboard.HiddenPagesMarked | frontend/src/pages/AdminDashboard.jsx:299-323 | every page with neither a button nor an ellipsis lies beyond an ellipsis on its side |
| AdminDashboard.PageArrows | frontend/src/pages/AdminDashboard.jsx:282 | the arrows show exactly when there is more than one page |
| AdminDashboard.ArrowsMoveByOne | frontend/src/pages/AdminDashboard.jsx:289-332 | an enabled arrow moves exactly one page; a disabled one would not move the page |
| AdminDashboard.RowAction | frontend/src/pages/AdminDashboard.jsx:247-270 | the row's button asks for the status the account does not have |
| AdminDashboard.RowActionFlipsStatus | frontend/src/pages/AdminDashboard.jsx:63-69 | confirming the row action flips that account's status on the server, whose message matches the toast |
| AdminDashboard.RowActionTwiceRestores | frontend/src/pages/AdminDashboard.jsx:63-69 | confirming the row action twice on another account puts the collection back exactly as it was |
| AppShell.ActivePage | frontend/src/App.jsx:15 | signed in, the role alone decides: the dashboard for admins, the profile for others |
| AppShell.Render | frontend/src/App.jsx:17-76 | signed out, login or signup by the page state; signed in, the Users entry exactly for admins and the dashboard only for admins |
| AppShell.MainIgnoresPage | frontend/src/App.jsx:74-75 | signed in, no nav click changes the main area |
| AppShell.AdminCannotReachProfile | frontend/src/App.jsx:39 | as written an admin never sees the profile page |
| AppShell.SignOutAfterNavShowsSignup | frontend/src/App.jsx:17-18 | signing out after a nav click shows the signup page, not login |
| AppShell.ActivePageIntended | frontend/src/App.jsx:35-39 | corrected: the nav's choice is honoured when allowed and the dashboard only for admins |
| AppShell.RenderIntended | frontend/src/App.jsx:73-76 | corrected screen: the same signed-out screens, and the dashboard only for admins |
| AppShell.IntendedNavigationWorks | frontend/src/App.jsx:34-39 | corrected: every user reaches the profile through the nav, admins reach the dashboard, and the first screen is unchanged |
| AuthProvider.InitialUser | frontend/src/context/AuthProvider.jsx:15-24 | a user is restored only when both keys are present and truthy and the user parses; otherwise null |
| AuthProvider.Start | frontend/src/context/AuthProvider.jsx:15 | mounting reads the stored keys without changing them |
| AuthProvider.Login | frontend/src/context/AuthProvider.jsx:26-30 | a 2xx answer stores token and user and signs that user in; anything else changes nothing |
| AuthProvider.Logout | frontend/src/context/AuthProvider.jsx:32-36 | logout clears the user and both keys and keeps every other key |
| AuthProvider.UpdateUser | frontend/src/context/AuthProvider.jsx:38-41 | the state and the stored user take the same value, and the token is untouched |
| AuthProvider.LoginKeepsConsistent | frontend/src/context/AuthProvider.jsx:15-30 | after a successful login a reload restores that user; a failed one keeps consistency |
| AuthProvider.LogoutKeepsConsistent | frontend/src/context/AuthProvider.jsx:32-36 | after logout a reload stays signed out |
| AuthProvider.UpdateUserKeepsConsistent | frontend/src/context/AuthProvider.jsx:38-41 | while signed in an update survives a reload; with no token it would not be restored |
| AuthProvider.SessionSurvivesReload | frontend/src/context/AuthProvider.jsx:15-41 | from the first mount, after any events, a reload restores the session on screen |
| AuthProvider.RunKeepsConsistent | frontend/src/context/AuthProvider.jsx:26-41 | every event sequence keeps a consistent session consistent |
| AuthProvider.LoginThroughServer | frontend/src/api.js:18-32 | signing in with matching credentials puts that account's view in the session; any other leaves it unchanged |

## Left out

- Password hashing: bcrypt's cost factor, its 72-byte truncation and its timing are not modelled. A digest records the password and salt, and verification compares passwords.
- Token signing, secrets and expiry: a token is its claims. A token failing signature or expiry is the single `Invalid` credential.
- The token middleware and the auth controller are not part of this model. Signup's check order (fields, email, password, conflict) is assumed, since the tests fix each answer but not their order. The missing-field text "All fields are required" and the logout text are assumptions, since no test fixes them.
- Login does not refuse inactive accounts, and nothing writes `lastLogin`. No visible code does either.
- Database I/O, `countDocuments` and exceptions other than a failed `save()`: the 500 branch of each handler is reached only by a record the schema or a unique index refuses. `getUsers` answers 500 for a negative skip, as MongoDB rejects it.
- `updatedAt` of the timestamps option is not modelled; `createdAt` is.
- JSON bodies carry strings only. A non-string `status`, `email` or `fullName` is not modelled.
- Express path matching: case-insensitive paths, trailing slashes, URL decoding and HEAD requests are not modelled. The default 404 page is a plain "Not Found" message. The error-handling middleware and Swagger are left out.
- Character handling: `toLowerCase()` is modelled for ASCII letters only, and lengths count code points rather than UTF-16 units.
- `handleProfileUpdate` of the profile page is not modelled beyond the session's `updateUser`. It sends the form as is, with no client check.
- The dashboard's modal, loading and refresh flags, date formatting, timers and toast display are presentational and are left out. So are `Badge`, `Input`, `Loading`, `Modal` and `Toast`.
- `AuthProvider.InitialUser`: stored JSON that parses to something other than an account is not modelled. A stored value is a token, an account, or text that does not parse.
- `AuthProvider.Login`: a 2xx answer whose body is not a token body is treated as a failure.
- Concurrency between browser tabs and between overlapping requests is not modelled.
- UserController.GetUsers: the order among accounts with equal `createdAt` is fixed by insertion order, whereas MongoDB leaves it open and need not keep it between two `skip` queries. `UserController.SortedOrderIsUnique` shows the order is forced when no two `createdAt` values are equal.
- UserController.PagesCoverListing: "every account on exactly one page" is promised for the modelled order only; with equal `createdAt` values MongoDB may return a tied account on two pages or on none.
- SignupPage.SubmittedFormPassesServerChecks: `backend/utils/validators.js` is not part of this model. The server's `validateEmail` is assumed to be the page's pattern `\S+@\S+\.\S+`; the code fixes it only on the rejected input `invalid-email` of `backend/tests/auth.test.js:35-45`. Its `validatePassword` is assumed to be "at least 8 characters with a lower-case letter, an upper-case letter and a digit", as the message at `backend/controllers/userController.js:136` says.
- SignupPage.SubmittedSignupCreatesAccount: rests on the same assumption about `validateEmail` and `validatePassword`.
- UserController.UpdateProfile: its "Invalid email format" branch uses the assumed `validateEmail`.
- UserController.ChangePassword: its policy branch uses the assumed `validatePassword`.
- `AdminDashboard.LoadFromServer` states the card counts for the page just loaded only, because the dashboard computes them from that page's rows.

## Findings

| source | as written | input that shows it | evidently intended | confidence | as-written member | corrected member |
|---|---|---|---|---|---|---|
| frontend/src/pages/UserProfile.jsx:45-49 | `handlePasswordChange` shows "Password changed successfully" and clears the card without ever calling `api.changePassword` | card ("Test@123", "NewTest@456", "NewTest@456") | send the change and report success only on a 200 answer, so the stored digest then verifies the new password | high, not executed | UserProfile.PasswordChangeNeverSent | UserProfile.SubmitPasswordChange |
| frontend/src/App.jsx:15 | `activePage` ignores the `page` state once someone is signed in, so an admin's Profile click still shows the dashboard | an admin account with page set to profile | honour the nav's choice when it is allowed | medium, not executed | AppShell.AdminCannotReachProfile | AppShell.RenderIntended |
