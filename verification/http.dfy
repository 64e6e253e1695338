/** The JSON responses the handlers send, and the identity the token gate
    attaches to a request. */
module Http {
  import opened Common
  import opened Accounts

  /** The claims a signed token carries (`req.user` after the gate). */
  datatype Identity = Identity(id: string, role: Role)

  /** A signed token. Its signature and expiry are not modelled: a token that
      fails either check is an `Invalid` credential at the gate. */
  datatype Token = Token(claims: Identity)

  /** The account as sent to clients. There is no password field: a view
      cannot carry the digest. */
  datatype AccountView = AccountView(
    id: string,
    email: string,
    fullName: string,
    role: Role,
    status: Status,
    createdAt: Option<nat>,
    lastLogin: Option<nat>)

  /** The listing's view of an account: every field but the password. */
  function View(a: Account): (v: AccountView)
    ensures v.id == a.id && v.email == a.email && v.fullName == a.fullName
    ensures v.role == a.role && v.status == a.status
    ensures v.createdAt == Some(a.createdAt) && v.lastLogin == a.lastLogin
  {
    AccountView(a.id, a.email, a.fullName, a.role, a.status, Some(a.createdAt), a.lastLogin)
  }

  /** The update handlers' view: id, email, fullName, role and status only. */
  function BriefView(a: Account): (v: AccountView)
    ensures v.id == a.id && v.email == a.email && v.fullName == a.fullName
    ensures v.role == a.role && v.status == a.status
    ensures v.createdAt == None && v.lastLogin == None
  {
    AccountView(a.id, a.email, a.fullName, a.role, a.status, None, None)
  }

  datatype Pagination = Pagination(page: int, limit: int, total: nat, totalPages: int)

  datatype Body =
    | ErrorBody(error: string)
    | MessageBody(text: string)
    | UserBody(message: Option<string>, user: AccountView)
    | TokenBody(token: Token, message: Option<string>, user: AccountView)
    | ListBody(users: seq<AccountView>, pagination: Pagination)

  datatype Response = Response(status: nat, body: Body)

  /** A handler's answer together with the collection after it ran. */
  datatype Reply = Reply(response: Response, store: Store)

  function Error(status: nat, message: string): Response {
    Response(status, ErrorBody(message))
  }

  /** An error reply: the collection is passed through untouched. */
  function Refuse(s: Store, status: nat, message: string): (r: Reply)
    ensures r.store == s && r.response == Response(status, ErrorBody(message))
  {
    Reply(Error(status, message), s)
  }

  const InternalError := "Internal server error"
  const UserNotFound := "User not found"
}
