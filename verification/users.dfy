/** The handlers of `backend/controllers/userController.js`: the admin listing
    and status toggle, and the self-service profile and password updates.
    Each takes the collection and the request's inputs and returns the
    response together with the collection afterwards. */
module UserController {
  import opened Common
  import opened Text
  import opened Validators
  import opened Accounts
  import opened Http

  // ---------------------------------------------------------------- listing

  /** Newest `createdAt` first. */
  predicate NewestFirst(s: seq<Account>) {
    forall i, j | 0 <= i < j < |s| :: s[i].createdAt >= s[j].createdAt
  }

  /** Puts `a` into a newest-first sequence, keeping it newest-first. */
  function InsertByAge(a: Account, s: seq<Account>): (r: seq<Account>)
    requires NewestFirst(s)
    ensures NewestFirst(r)
    ensures multiset(r) == multiset(s) + multiset{a}
  {
    if |s| == 0 || a.createdAt >= s[0].createdAt then [a] + s
    else
      var rest := InsertByAge(a, s[1..]);
      OlderBehindHead(a, s, rest);
      [s[0]] + rest
  }

  /** Putting the head of `s` in front of an ordered sequence that holds the
      rest of `s` and the younger `a` keeps the order and the contents. */
  lemma OlderBehindHead(a: Account, s: seq<Account>, rest: seq<Account>)
    requires |s| > 0 && NewestFirst(s) && a.createdAt < s[0].createdAt
    requires NewestFirst(rest) && multiset(rest) == multiset(s[1..]) + multiset{a}
    ensures NewestFirst([s[0]] + rest)
    ensures multiset([s[0]] + rest) == multiset(s) + multiset{a}
  {
    assert s == [s[0]] + s[1..];
    forall k | 0 <= k < |rest| ensures rest[k].createdAt <= s[0].createdAt {
      var x := rest[k];
      assert x in multiset(rest);
      if x != a {
        assert x in multiset(s[1..]);
        var m :| 0 <= m < |s[1..]| && s[1..][m] == x;
        assert s[m + 1] == x;
      }
    }
    var r := [s[0]] + rest;
    forall i, j | 0 <= i < j < |r| ensures r[i].createdAt >= r[j].createdAt {
      assert r[j] == rest[j - 1];
      if i > 0 {
        assert r[i] == rest[i - 1];
      }
    }
  }

  /** `.sort({ createdAt: -1 })`: the collection ordered newest first. */
  function SortNewestFirst(s: seq<Account>): (r: seq<Account>)
    ensures NewestFirst(r)
    ensures multiset(r) == multiset(s)
    ensures |r| == |s|
  {
    if |s| == 0 then []
    else
      assert s == [s[0]] + s[1..];
      var r := InsertByAge(s[0], SortNewestFirst(s[1..]));
      assert |r| == |multiset(r)|;
      r
  }

  /** No account appears twice and no two share a `createdAt`. */
  predicate DistinctAges(m: multiset<Account>) {
    && (forall x | x in m :: m[x] == 1)
    && (forall x, y | x in m && y in m && x != y :: x.createdAt != y.createdAt)
  }

  /** Strictly newest first: no two entries of the same age. */
  predicate StrictlyNewestFirst(s: seq<Account>) {
    forall i, j | 0 <= i < j < |s| :: s[i].createdAt > s[j].createdAt
  }

  /** `.sort({ createdAt: -1 })` leaves the order of equal `createdAt` values
      to the database. When no two accounts share one, every newest-first
      arrangement of the collection is the one `SortNewestFirst` gives, so
      the listing does not depend on how ties would be broken. */
  lemma SortedOrderIsUnique(s: seq<Account>, r: seq<Account>)
    requires DistinctAges(multiset(s))
    requires NewestFirst(r) && multiset(r) == multiset(s)
    ensures r == SortNewestFirst(s)
  {
    var sorted := SortNewestFirst(s);
    StrictWhenDistinct(r);
    StrictWhenDistinct(sorted);
    StrictOrderUnique(r, sorted);
  }

  /** A newest-first sequence of accounts with distinct ages is strictly ordered. */
  lemma StrictWhenDistinct(r: seq<Account>)
    requires NewestFirst(r) && DistinctAges(multiset(r))
    ensures StrictlyNewestFirst(r)
  {
    forall i, j | 0 <= i < j < |r| ensures r[i].createdAt > r[j].createdAt {
      RepeatCountsTwice(r, i, j);
      assert r[i] in multiset(r) && r[j] in multiset(r);
    }
  }

  /** An entry that occurs at two positions occurs twice in the multiset. */
  lemma RepeatCountsTwice<T>(r: seq<T>, i: int, j: int)
    requires 0 <= i < j < |r|
    ensures r[i] == r[j] ==> multiset(r)[r[i]] >= 2
  {
    assert r == r[..j] + r[j..];
    assert r[..j][i] == r[i] && r[j..][0] == r[j];
    assert r[i] in multiset(r[..j]);
    assert r[j] in multiset(r[j..]);
  }

  /** Two strictly ordered sequences with the same contents are equal. */
  lemma {:induction false} StrictOrderUnique(a: seq<Account>, b: seq<Account>)
    requires StrictlyNewestFirst(a) && StrictlyNewestFirst(b) && multiset(a) == multiset(b)
    ensures a == b
    decreases |a|
  {
    assert |a| == |multiset(a)| == |multiset(b)| == |b|;
    if |a| > 0 {
      HeadsAgree(a, b);
      TailsAgree(a, b);
      StrictTail(a);
      StrictTail(b);
      StrictOrderUnique(a[1..], b[1..]);
      assert a == [a[0]] + a[1..] && b == [b[0]] + b[1..];
    }
  }

  /** The newest entries of two strictly ordered sequences with the same
      contents coincide. */
  lemma HeadsAgree(a: seq<Account>, b: seq<Account>)
    requires |a| > 0 && |b| > 0
    requires StrictlyNewestFirst(a) && StrictlyNewestFirst(b) && multiset(a) == multiset(b)
    ensures a[0] == b[0]
  {
    assert a[0] in multiset(b) && b[0] in multiset(a);
    var m :| 0 <= m < |b| && b[m] == a[0];
    var n :| 0 <= n < |a| && a[n] == b[0];
    assert a[n].createdAt <= a[0].createdAt;
    assert b[m].createdAt <= b[0].createdAt;
    assert m == 0;
  }

  lemma TailsAgree(a: seq<Account>, b: seq<Account>)
    requires |a| > 0 && |b| > 0 && a[0] == b[0] && multiset(a) == multiset(b)
    ensures multiset(a[1..]) == multiset(b[1..])
  {
    assert a == [a[0]] + a[1..] && b == [b[0]] + b[1..];
    assert multiset(a[1..]) == multiset(a) - multiset{a[0]};
    assert multiset(b[1..]) == multiset(b) - multiset{b[0]};
  }

  lemma StrictTail(a: seq<Account>)
    requires |a| > 0 && StrictlyNewestFirst(a)
    ensures StrictlyNewestFirst(a[1..])
  {
    forall i, j | 0 <= i < j < |a| - 1 ensures a[1..][i].createdAt > a[1..][j].createdAt {
      assert a[1..][i] == a[i + 1] && a[1..][j] == a[j + 1];
    }
  }

  /** `.skip(skip).limit(take)` on an already ordered sequence. */
  function Window(s: seq<Account>, skip: nat, take: nat): (r: seq<Account>)
    ensures |r| == if skip >= |s| then 0 else Min(take, |s| - skip)
    ensures forall k | 0 <= k < |r| :: r[k] == s[skip + k]
  {
    if skip >= |s| then [] else s[skip..skip + Min(take, |s| - skip)]
  }

  function Min(a: int, b: int): int { if a <= b then a else b }
  function Abs(a: int): nat { if a < 0 then -a else a }

  /** `parseInt(x) || fallback`: NaN (None) and 0 fall back. */
  function QueryNumber(parsed: Option<int>, fallback: int): int {
    match parsed
    case Some(v) => if v == 0 then fallback else v
    case None => fallback
  }

  /** `Math.ceil(n / d)` for a non-zero integer divisor. */
  function CeilDiv(n: nat, d: int): (r: int)
    requires d != 0
    ensures d > 0 ==> (r - 1) * d < n <= r * d
    ensures d < 0 ==> r * d <= n < (r - 1) * d
    ensures d < 0 ==> r <= 0
  {
    if d > 0 then
      CeilPositive(n, d);
      (n + d - 1) / d
    else
      CeilNegative(n, -d);
      -(n / -d)
  }

  lemma CeilPositive(n: nat, d: int)
    requires d > 0
    ensures var q := (n + d - 1) / d; (q - 1) * d < n <= q * d
  {
    var q := (n + d - 1) / d;
    assert n + d - 1 == q * d + (n + d - 1) % d;
    assert (q - 1) * d == q * d - d;
  }

  lemma CeilNegative(n: nat, e: int)
    requires e > 0
    ensures var r := -(n / e); r * -e <= n < (r - 1) * -e && r <= 0
  {
    var q := n / e;
    assert n == q * e + n % e;
    assert (-q) * -e == q * e;
    assert (-q - 1) * -e == q * e + e;
  }

  /** `(page - 1) * limit`: how many entries the page skips. */
  function Offset(page: int, limit: int): int {
    (page - 1) * limit
  }

  /** `getUsers`: one page of the collection, newest first, without passwords. */
  function GetUsers(s: Store, pageArg: Option<int>, limitArg: Option<int>): (r: Reply)
    ensures r.store == s
    ensures
      var page := QueryNumber(pageArg, 1);
      var limit := QueryNumber(limitArg, 10);
      var skip := Offset(page, limit);
      && (skip < 0 ==> r.response == Error(500, InternalError))
      && (skip >= 0 ==>
          && r.response.status == 200 && r.response.body.ListBody?
          && var users := r.response.body.users;
          && |users| == (if skip >= |s| then 0 else Min(Abs(limit), |s| - skip))
          && |users| <= Abs(limit)
          && (forall k | 0 <= k < |users| :: users[k] == View(SortNewestFirst(s)[skip + k]))
          && r.response.body.pagination.page == page
          && r.response.body.pagination.limit == limit
          && r.response.body.pagination.total == |s|
          && var pages := r.response.body.pagination.totalPages;
          && (limit > 0 ==> (pages - 1) * limit < |s| <= pages * limit)
          && (limit < 0 ==> pages * limit <= |s| < (pages - 1) * limit && pages <= 0))
  {
    var page := QueryNumber(pageArg, 1);
    var limit := QueryNumber(limitArg, 10);
    var skip := Offset(page, limit);
    if skip < 0 then Refuse(s, 500, InternalError)
    else
      var rows := Window(SortNewestFirst(s), skip, Abs(limit));
      var views := seq(|rows|, k requires 0 <= k < |rows| => View(rows[k]));
      Reply(Response(200, ListBody(views, Pagination(page, limit, |s|, CeilDiv(|s|, limit)))), s)
  }

  /** With a positive limit, the pages number the newest-first ordering
      without gaps or overlaps: position `k` is entry `k % limit` of page
      `k / limit + 1`, and that page is within `totalPages`. */
  lemma PagesCoverListing(s: Store, limit: int, k: int)
    requires 0 < limit && 0 <= k < |s|
    ensures
      var page := k / limit + 1;
      var r := GetUsers(s, Some(page), Some(limit));
      && r.response.status == 200
      && k % limit < |r.response.body.users|
      && r.response.body.users[k % limit] == View(SortNewestFirst(s)[k])
      && 1 <= page <= r.response.body.pagination.totalPages
  {
    PageArithmetic(k, limit);
    PageHolds(s, k / limit + 1, limit, k % limit);
    PageEntry(s, k / limit + 1, limit, k % limit);
    PageWithinTotal(s, k / limit + 1, limit);
  }

  /** A page with an entry at position `m` is answered with at least `m + 1` rows. */
  lemma PageHolds(s: Store, page: int, limit: int, m: int)
    requires 1 <= page && 0 < limit && 0 <= m < limit && Offset(page, limit) + m < |s|
    ensures GetUsers(s, Some(page), Some(limit)).response.status == 200
    ensures GetUsers(s, Some(page), Some(limit)).response.body.ListBody?
    ensures m < |GetUsers(s, Some(page), Some(limit)).response.body.users|
  {
    MulMonotone(0, page - 1, limit);
    assert QueryNumber(Some(page), 1) == page;
    assert QueryNumber(Some(limit), 10) == limit;
  }

  /** Entry `m` of page `page` is entry `(page - 1) * limit + m` of the
      newest-first ordering. */
  lemma PageEntry(s: Store, page: int, limit: int, m: int)
    requires 1 <= page && 0 < limit && 0 <= m < limit && Offset(page, limit) + m < |s|
    ensures GetUsers(s, Some(page), Some(limit)).response.body.ListBody?
    ensures m < |GetUsers(s, Some(page), Some(limit)).response.body.users|
    ensures GetUsers(s, Some(page), Some(limit)).response.body.users[m] == View(SortNewestFirst(s)[Offset(page, limit) + m])
  {
    PageHolds(s, page, limit, m);
    assert QueryNumber(Some(page), 1) == page;
    assert QueryNumber(Some(limit), 10) == limit;
  }

  /** A page that holds an entry is within `totalPages`. */
  lemma PageWithinTotal(s: Store, page: int, limit: int)
    requires 1 <= page && 0 < limit && Offset(page, limit) < |s|
    ensures GetUsers(s, Some(page), Some(limit)).response.body.ListBody?
    ensures page <= GetUsers(s, Some(page), Some(limit)).response.body.pagination.totalPages
  {
    MulMonotone(0, page - 1, limit);
    assert QueryNumber(Some(page), 1) == page;
    assert QueryNumber(Some(limit), 10) == limit;
    var pages := GetUsers(s, Some(page), Some(limit)).response.body.pagination.totalPages;
    assert |s| <= pages * limit;
    if pages < page {
      MulMonotone(pages, page - 1, limit);
    }
  }

  lemma PageArithmetic(k: int, limit: int)
    requires 0 <= k && 0 < limit
    ensures 0 <= k % limit < limit && 0 <= k / limit
    ensures (k / limit + 1 - 1) * limit + k % limit == k
  {
  }

  lemma MulMonotone(a: int, b: int, c: int)
    requires a <= b && 0 < c
    ensures a * c <= b * c
  {
  }

  // ---------------------------------------------------------------- status

  function StatusMessage(st: Status): string {
    if st == Active then "User activated successfully" else "User deactivated successfully"
  }

  /** `updateStatus`: an admin sets another account's status. */
  function UpdateStatus(s: Store, caller: Identity, targetId: string, status: string): (r: Reply)
    ensures ParseStatus(status).None? ==> r == Refuse(s, 400, "Invalid status value")
    ensures ParseStatus(status).Some? && IndexOfId(s, targetId).None? ==> r == Refuse(s, 404, UserNotFound)
    ensures ParseStatus(status).Some? && IndexOfId(s, targetId).Some? && targetId == caller.id ==>
              r == Refuse(s, 400, "Cannot change your own status")
    ensures ValidStore(s) && ParseStatus(status).Some? && IndexOfId(s, targetId).Some? && targetId != caller.id ==>
              var i := IndexOfId(s, targetId).value;
              var st := ParseStatus(status).value;
              && r.store == s[i := s[i].(status := st)]
              && r.response == Response(200, UserBody(Some(StatusMessage(st)), BriefView(r.store[i])))
    ensures r.response.status != 200 ==> r.store == s
    ensures ValidStore(s) ==> ValidStore(r.store)
  {
    match ParseStatus(status)
    case None => Refuse(s, 400, "Invalid status value")
    case Some(st) =>
      match IndexOfId(s, targetId)
      case None => Refuse(s, 404, UserNotFound)
      case Some(i) =>
        if s[i].id == caller.id then Refuse(s, 400, "Cannot change your own status")
        else
          var updated := s[i].(status := st);
          KeysUnchanged(s, i, updated);
          match Save(s, i, updated)
          case None => Refuse(s, 500, InternalError)
          case Some(s') => Reply(Response(200, UserBody(Some(StatusMessage(st)), BriefView(updated))), s')
  }

  /** A record that keeps its id, email and name passes `save()` in a valid collection. */
  lemma KeysUnchanged(s: Store, i: nat, a: Account)
    requires i < |s| && a.id == s[i].id && a.email == s[i].email && a.fullName == s[i].fullName
    ensures ValidStore(s) ==> WellFormed(a) && !ClashesWithOthers(s, i, a)
  {
    if ValidStore(s) {
      assert WellFormed(s[i]);
      forall j | 0 <= j < |s| && j != i ensures s[j].id != a.id && s[j].email != a.email {
        if j < i { assert s[j].id != s[i].id && s[j].email != s[i].email; }
        else { assert s[i].id != s[j].id && s[i].email != s[j].email; }
      }
    }
  }

  // ---------------------------------------------------------------- profile

  /** The record after a profile update: the name trimmed if one was given,
      the email normalised if one was given, every other field as it was. */
  function MergeProfile(a: Account, fullName: string, email: string): (b: Account)
    ensures b.fullName == (if fullName != "" then Trim(fullName) else a.fullName)
    ensures b.email == (if email != "" then NormalizeEmail(email) else a.email)
    ensures b.(fullName := a.fullName, email := a.email) == a
  {
    var named := if fullName != "" then a.(fullName := Trim(fullName)) else a;
    if email != "" then named.(email := NormalizeEmail(email)) else named
  }

  /** `updateProfile`: the caller edits their own name and email. Empty
      strings stand for absent fields, as both are falsy in JavaScript. */
  function UpdateProfile(s: Store, caller: Identity, fullName: string, email: string): (r: Reply)
    ensures fullName == "" && email == "" ==> r == Refuse(s, 400, "No fields to update")
    ensures (fullName != "" || email != "") && IndexOfId(s, caller.id).None? ==> r == Refuse(s, 404, UserNotFound)
    ensures (fullName != "" || email != "") && IndexOfId(s, caller.id).Some? && email != "" && !IsValidEmail(email) ==>
              r == Refuse(s, 400, "Invalid email format")
    ensures (fullName != "" || email != "") && IndexOfId(s, caller.id).Some? && email != "" && IsValidEmail(email)
              && EmailHeldByOther(s, NormalizeEmail(email), caller.id) ==>
              r == Refuse(s, 409, "Email already in use")
    ensures fullName != "" && IsBlank(fullName) ==> r.response.status != 200
    ensures ValidStore(s) && ProfileAccepted(s, caller, fullName, email) ==>
              var i := IndexOfId(s, caller.id).value;
              && r.store == s[i := MergeProfile(s[i], fullName, email)]
              && r.response == Response(200, UserBody(Some("Profile updated successfully"), BriefView(r.store[i])))
    ensures r.response.status != 200 ==> r.store == s
    ensures ValidStore(s) ==> ValidStore(r.store)
  {
    if fullName == "" && email == "" then Refuse(s, 400, "No fields to update")
    else match IndexOfId(s, caller.id)
      case None => Refuse(s, 404, UserNotFound)
      case Some(i) =>
        if email != "" && !IsValidEmail(email) then Refuse(s, 400, "Invalid email format")
        else if email != "" && EmailHeldByOther(s, NormalizeEmail(email), s[i].id) then
          Refuse(s, 409, "Email already in use")
        else
          var updated := MergeProfile(s[i], fullName, email);
          ProfileSaveAccepted(s, i, fullName, email);
          match Save(s, i, updated)
          case None => Refuse(s, 500, InternalError)
          case Some(s') =>
            Reply(Response(200, UserBody(Some("Profile updated successfully"), BriefView(updated))), s')
  }

  /** The inputs with which `updateProfile` succeeds: some field given, the
      caller's record present, a given name not blank, a given email matching
      the pattern and held by no other account. */
  predicate ProfileAccepted(s: Store, caller: Identity, fullName: string, email: string) {
    && (fullName != "" || email != "")
    && IndexOfId(s, caller.id).Some?
    && (fullName != "" ==> !IsBlank(fullName))
    && (email != "" ==> IsValidEmail(email) && !EmailHeldByOther(s, NormalizeEmail(email), caller.id))
  }

  lemma ProfileSaveAccepted(s: Store, i: nat, fullName: string, email: string)
    requires i < |s|
    ensures var updated := MergeProfile(s[i], fullName, email);
      ValidStore(s) && (fullName != "" ==> !IsBlank(fullName))
      && (email != "" ==> IsValidEmail(email) && !EmailHeldByOther(s, NormalizeEmail(email), s[i].id)) ==>
      WellFormed(updated) && !ClashesWithOthers(s, i, updated)
    ensures fullName != "" && IsBlank(fullName) ==> !WellFormed(MergeProfile(s[i], fullName, email))
  {
    var updated := MergeProfile(s[i], fullName, email);
    NewAccountFields(email, fullName);
    TrimEmptyIffBlank(fullName);
    if ValidStore(s) && (fullName != "" ==> !IsBlank(fullName))
      && (email != "" ==> IsValidEmail(email) && !EmailHeldByOther(s, NormalizeEmail(email), s[i].id)) {
      forall j | 0 <= j < |s| && j != i ensures s[j].id != updated.id && s[j].email != updated.email {
        if j < i { assert s[j].id != s[i].id && s[j].email != s[i].email; }
        else { assert s[i].id != s[j].id && s[i].email != s[j].email; }
      }
    }
  }

  // ---------------------------------------------------------------- password

  /** `changePassword`: the caller replaces their password after proving the
      current one. Checks run in order: both fields present, the new password
      strong, the record present, the current password right. */
  function ChangePassword(s: Store, caller: Identity, currentPassword: string, newPassword: string, salt: nat): (r: Reply)
    ensures currentPassword == "" || newPassword == "" ==> r == Refuse(s, 400, "Current and new password required")
    ensures currentPassword != "" && newPassword != "" && !IsStrongPassword(newPassword) ==> r == Refuse(s, 400, PasswordPolicyMessage)
    ensures currentPassword != "" && newPassword != "" && IsStrongPassword(newPassword) && IndexOfId(s, caller.id).None? ==>
              r == Refuse(s, 404, UserNotFound)
    ensures currentPassword != "" && newPassword != "" && IsStrongPassword(newPassword) && IndexOfId(s, caller.id).Some?
              && !Verify(currentPassword, s[IndexOfId(s, caller.id).value].password) ==>
              r == Refuse(s, 401, "Current password is incorrect")
    ensures ValidStore(s) && currentPassword != "" && IsStrongPassword(newPassword) && IndexOfId(s, caller.id).Some?
              && Verify(currentPassword, s[IndexOfId(s, caller.id).value].password) ==>
              var i := IndexOfId(s, caller.id).value;
              && r.response == Response(200, MessageBody("Password changed successfully"))
              && r.store == s[i := s[i].(password := Hash(newPassword, salt))]
    ensures r.response.status == 200 ==>
              && currentPassword != "" && IsStrongPassword(newPassword) && IndexOfId(s, caller.id).Some?
              && Verify(currentPassword, s[IndexOfId(s, caller.id).value].password)
    ensures r.response.status != 200 ==> r.store == s
    ensures ValidStore(s) ==> ValidStore(r.store)
  {
    if currentPassword == "" || newPassword == "" then Refuse(s, 400, "Current and new password required")
    else if !IsStrongPassword(newPassword) then Refuse(s, 400, PasswordPolicyMessage)
    else match IndexOfId(s, caller.id)
      case None => Refuse(s, 404, UserNotFound)
      case Some(i) =>
        if !Verify(currentPassword, s[i].password) then Refuse(s, 401, "Current password is incorrect")
        else
          var updated := s[i].(password := Hash(newPassword, salt));
          KeysUnchanged(s, i, updated);
          match Save(s, i, updated)
          case None => Refuse(s, 500, InternalError)
          case Some(s') => Reply(Response(200, MessageBody("Password changed successfully")), s')
  }
}
