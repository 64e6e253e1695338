/** The Account record of `backend/models/User.js` and the account collection
    it is stored in. */
module Accounts {
  import opened Common
  import opened Text
  import opened Validators

  datatype Role = Admin | User
  datatype Status = Active | Inactive

  function RoleName(r: Role): string {
    match r
    case Admin => "admin"
    case User => "user"
  }

  function StatusName(s: Status): string {
    match s
    case Active => "active"
    case Inactive => "inactive"
  }

  /** `['active', 'inactive'].includes(s)`, returning the recognised status. */
  function ParseStatus(s: string): (r: Option<Status>)
    ensures r.Some? <==> s == "active" || s == "inactive"
    ensures r.Some? ==> StatusName(r.value) == s
  {
    if s == "active" then Some(Active)
    else if s == "inactive" then Some(Inactive)
    else None
  }

  /** Parsing a status name gives back that status. */
  lemma ParseStatusName(s: Status)
    ensures ParseStatus(StatusName(s)) == Some(s)
  {
  }

  /** A bcrypt digest. The model keeps the password and the salt it was made
      from so that `Verify` can be stated; nothing but `Verify` looks inside. */
  datatype Digest = Digest(password: string, salt: nat)

  /** `bcrypt.hash(password, 10)` with the random salt as a parameter. */
  function Hash(password: string, salt: nat): (d: Digest)
    ensures Verify(password, d)
    ensures forall other | other != password :: !Verify(other, d)
  {
    Digest(password, salt)
  }

  /** `bcrypt.compare(candidate, digest)`. */
  predicate Verify(candidate: string, d: Digest) {
    candidate == d.password
  }

  /** The email as stored: the schema lower-cases and trims it. */
  function NormalizeEmail(e: string): string {
    Trim(ToLower(e))
  }

  /** The form the schema stores an email in: lower case, trimmed. */
  predicate IsNormalEmail(e: string) {
    IsLowerCase(e) && IsTrimmed(e)
  }

  /** Normalising always yields the stored form. */
  lemma NormalizeGivesNormal(e: string)
    ensures IsNormalEmail(NormalizeEmail(e))
  {
    var l := ToLower(e);
    var r := Trim(l);
    var a :| 0 <= a <= |l| - |r| && TrimmedAt(l, r, a);
    forall i | 0 <= i < |r| ensures !IsAsciiUpper(r[i]) {
      assert r[i] == l[a + i];
    }
  }

  /** An email is left alone by normalising exactly when it is in the stored form. */
  lemma {:induction false} NormalEmailIsFixed(e: string)
    ensures NormalizeEmail(e) == e <==> IsNormalEmail(e)
  {
    ToLowerFixedIffLowerCase(e);
    if IsNormalEmail(e) {
      TrimOfTrimmed(e);
    } else if NormalizeEmail(e) == e {
      NormalizeGivesNormal(e);
    }
  }

  /** A stored email normalises to itself. */
  lemma NormalizeIdempotent(e: string)
    ensures NormalizeEmail(NormalizeEmail(e)) == NormalizeEmail(e)
  {
    NormalizeGivesNormal(e);
    NormalEmailIsFixed(NormalizeEmail(e));
  }

  /** A matching email normalises to a non-empty string. */
  lemma NormalizedValidEmailNotEmpty(e: string)
    requires IsValidEmail(e)
    ensures |NormalizeEmail(e)| > 0
  {
    ValidEmailNotBlank(e);
    var k :| 0 <= k < |e| && !IsSpace(e[k]);
    LowerKeepsSpace(e[k]);
    assert !IsSpace(ToLower(e)[k]);
    TrimEmptyIffBlank(ToLower(e));
  }

  datatype Account = Account(
    id: string,
    email: string,
    password: Digest,
    fullName: string,
    role: Role,
    status: Status,
    createdAt: nat,
    lastLogin: Option<nat>)

  /** The schema: email required and stored normalised, fullName required and
      stored trimmed. Role and status lie in their enums by construction. */
  predicate WellFormed(a: Account) {
    && |a.id| > 0
    && |a.email| > 0 && IsNormalEmail(a.email)
    && |a.fullName| > 0 && IsTrimmed(a.fullName)
  }

  /** A new account as the schema creates it: normalised email, trimmed name,
      role `user` and status `active` by default, no last login. */
  function NewAccount(id: string, email: string, password: Digest, fullName: string, now: nat): (a: Account)
    ensures a.role == User && a.status == Active && a.lastLogin == None
    ensures a.email == NormalizeEmail(email) && a.fullName == Trim(fullName)
    ensures |id| > 0 && !IsBlank(fullName) && IsValidEmail(email) ==> WellFormed(a)
  {
    NewAccountFields(email, fullName);
    Account(id, NormalizeEmail(email), password, Trim(fullName), User, Active, now, None)
  }

  lemma NewAccountFields(email: string, fullName: string)
    ensures !IsBlank(fullName) ==> |Trim(fullName)| > 0
    ensures IsValidEmail(email) ==> |NormalizeEmail(email)| > 0
    ensures IsNormalEmail(NormalizeEmail(email))
  {
    TrimEmptyIffBlank(fullName);
    NormalizeGivesNormal(email);
    if IsValidEmail(email) {
      NormalizedValidEmailNotEmpty(email);
    }
  }

  /** The users collection, in insertion order. */
  type Store = seq<Account>

  /** The collection invariant: every record satisfies the schema, and no two
      records share an id or a (normalised) email. */
  predicate ValidStore(s: Store) {
    && (forall i | 0 <= i < |s| :: WellFormed(s[i]))
    && (forall i, j | 0 <= i < j < |s| :: s[i].id != s[j].id && s[i].email != s[j].email)
  }

  /** `User.findById(id)`: the position of the record with that id. */
  function IndexOfId(s: Store, id: string): (r: Option<nat>)
    ensures r.Some? ==> r.value < |s| && s[r.value].id == id
    ensures r.None? <==> forall i | 0 <= i < |s| :: s[i].id != id
  {
    if |s| == 0 then None
    else if s[0].id == id then Some(0)
    else match IndexOfId(s[1..], id)
      case None => None
      case Some(k) => Some(k + 1)
  }

  /** `User.findOne({ email })`: the position of the record with that stored email. */
  function IndexOfEmail(s: Store, email: string): (r: Option<nat>)
    ensures r.Some? ==> r.value < |s| && s[r.value].email == email
    ensures r.None? <==> forall i | 0 <= i < |s| :: s[i].email != email
  {
    if |s| == 0 then None
    else if s[0].email == email then Some(0)
    else match IndexOfEmail(s[1..], email)
      case None => None
      case Some(k) => Some(k + 1)
  }

  /** `User.findOne({ email, _id: { $ne: id } })` found something. */
  predicate EmailHeldByOther(s: Store, email: string, id: string) {
    exists i | 0 <= i < |s| :: s[i].email == email && s[i].id != id
  }

  /** In a valid store at most one record has a given id. */
  lemma IdIsKey(s: Store, i: int, j: int)
    requires ValidStore(s) && 0 <= i < |s| && 0 <= j < |s| && s[i].id == s[j].id
    ensures i == j
  {
  }

  /** `user.save()` on the record at `i`: the schema validators and the unique
      indexes on `_id` and `email` either accept the new record, or the save
      throws and the handler answers 500. */
  function Save(s: Store, i: nat, a: Account): (r: Option<Store>)
    requires i < |s|
    ensures r.Some? ==> r.value == s[i := a] && |r.value| == |s|
    ensures r.Some? <==> WellFormed(a) && !ClashesWithOthers(s, i, a)
    ensures ValidStore(s) && r.Some? ==> ValidStore(r.value)
  {
    if WellFormed(a) && !ClashesWithOthers(s, i, a) then
      ReplaceKeepsValid(s, i, a);
      Some(s[i := a])
    else None
  }

  lemma ReplaceKeepsValid(s: Store, i: nat, a: Account)
    requires i < |s| && WellFormed(a) && !ClashesWithOthers(s, i, a)
    ensures ValidStore(s) ==> ValidStore(s[i := a])
  {
    var t := s[i := a];
    if ValidStore(s) {
      forall j | 0 <= j < |t| ensures WellFormed(t[j]) {
        if j != i {
          assert t[j] == s[j];
        }
      }
      forall j, k | 0 <= j < k < |t|
        ensures t[j].id != t[k].id && t[j].email != t[k].email
      {
        if j == i {
          assert t[k] == s[k];
        } else if k == i {
          assert t[j] == s[j];
        } else {
          assert t[j] == s[j] && t[k] == s[k];
        }
      }
    }
  }

  /** Some other record has the id or the email of `a`. */
  predicate ClashesWithOthers(s: Store, i: nat, a: Account) {
    exists j | 0 <= j < |s| && j != i :: s[j].id == a.id || s[j].email == a.email
  }

  /** `new User(...).save()`: the record is appended unless it breaks the
      schema or a unique index. */
  function Insert(s: Store, a: Account): (r: Option<Store>)
    ensures r.Some? <==> WellFormed(a) && !NewClashes(s, a)
    ensures r.Some? ==> r.value == s + [a]
    ensures ValidStore(s) && r.Some? ==> ValidStore(r.value)
  {
    if WellFormed(a) && !NewClashes(s, a) then
      AppendKeepsValid(s, a);
      Some(s + [a])
    else None
  }

  lemma AppendKeepsValid(s: Store, a: Account)
    requires WellFormed(a) && !NewClashes(s, a)
    ensures ValidStore(s) ==> ValidStore(s + [a])
  {
    var t := s + [a];
    if ValidStore(s) {
      forall j | 0 <= j < |t| ensures WellFormed(t[j]) {
        if j < |s| {
          assert t[j] == s[j];
        }
      }
      forall j, k | 0 <= j < k < |t|
        ensures t[j].id != t[k].id && t[j].email != t[k].email
      {
        assert t[j] == s[j];
        if k == |s| {
          assert t[k] == a;
        } else {
          assert t[k] == s[k];
        }
      }
    }
  }

  /** Some record already has the id or the email of `a`. */
  predicate NewClashes(s: Store, a: Account) {
    exists j | 0 <= j < |s| :: s[j].id == a.id || s[j].email == a.email
  }
}
