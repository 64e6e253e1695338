/** The pure parts of `frontend/src/pages/AdminDashboard.jsx`: the search
    filter, the statistics cards, the page bounds and page-number window,
    and the row action that toggles an account's status. */
module AdminDashboard {
  import opened Common
  import opened Text
  import opened Accounts
  import opened Http
  import UserController

  // ---------------------------------------------------------------- search

  /** One account matches the (already lower-cased) query on its lower-cased
      full name, email or role. */
  predicate SearchHit(u: AccountView, query: string) {
    || Contains(ToLower(u.fullName), query)
    || Contains(ToLower(u.email), query)
    || Contains(ToLower(RoleName(u.role)), query)
  }

  /** `users.filter(...)`: the matching accounts in their original order. */
  function Filter(users: seq<AccountView>, query: string): (r: seq<AccountView>)
    ensures |r| <= |users|
    decreases |users|
  {
    if |users| == 0 then []
    else if SearchHit(users[0], query) then [users[0]] + Filter(users[1..], query)
    else Filter(users[1..], query)
  }

  /** The search effect: a query that is blank after trimming shows every
      account; otherwise the query is lower-cased but not trimmed. */
  function SearchFilter(users: seq<AccountView>, searchQuery: string): (r: seq<AccountView>)
    ensures IsBlank(searchQuery) ==> r == users
    ensures |r| <= |users|
  {
    TrimEmptyIffBlank(searchQuery);
    if Trim(searchQuery) == "" then users
    else Filter(users, ToLower(searchQuery))
  }

  /** `a` is obtained from `b` by deleting entries. */
  predicate IsSubsequence<T(==)>(a: seq<T>, b: seq<T>)
    decreases |b|
  {
    if |a| == 0 then true
    else if |b| == 0 then false
    else if a[0] == b[0] then IsSubsequence(a[1..], b[1..])
    else IsSubsequence(a, b[1..])
  }

  /** An account is shown exactly when it is listed and matches. */
  lemma {:induction false} FilterMembership(users: seq<AccountView>, query: string, u: AccountView)
    ensures u in Filter(users, query) <==> u in users && SearchHit(u, query)
    decreases |users|
  {
    if |users| > 0 {
      FilterMembership(users[1..], query, u);
      assert users == [users[0]] + users[1..];
    }
  }

  /** The filter keeps the listing's order: its result is a subsequence. */
  lemma {:induction false} FilterIsSubsequence(users: seq<AccountView>, query: string)
    ensures IsSubsequence(Filter(users, query), users)
    decreases |users|
  {
    if |users| > 0 {
      FilterIsSubsequence(users[1..], query);
      var rest := Filter(users[1..], query);
      if SearchHit(users[0], query) {
        assert ([users[0]] + rest)[1..] == rest;
      } else {
        SkipHeadKeepsSubsequence(rest, users);
      }
    }
  }

  /** A subsequence of the tail is a subsequence of the whole. */
  lemma {:induction false} SkipHeadKeepsSubsequence<T>(a: seq<T>, b: seq<T>)
    requires |b| > 0 && IsSubsequence(a, b[1..])
    ensures IsSubsequence(a, b)
    decreases |b|, 0
  {
    if |a| > 0 && a[0] == b[0] {
      DropHeadKeepsSubsequence(a, b[1..]);
    }
  }

  /** Dropping the first entry of a subsequence leaves a subsequence. */
  lemma {:induction false} DropHeadKeepsSubsequence<T>(a: seq<T>, b: seq<T>)
    requires |a| > 0 && IsSubsequence(a, b)
    ensures IsSubsequence(a[1..], b)
    decreases |b|, 1
  {
    if a[0] != b[0] {
      DropHeadKeepsSubsequence(a, b[1..]);
    }
    SkipHeadKeepsSubsequence(a[1..], b);
  }

  /** Filtering two consecutive runs of accounts filters each on its own. */
  lemma {:induction false} FilterSplits(a: seq<AccountView>, b: seq<AccountView>, query: string)
    ensures Filter(a + b, query) == Filter(a, query) + Filter(b, query)
    decreases |a|
  {
    if |a| > 0 {
      assert (a + b)[0] == a[0];
      assert (a + b)[1..] == a[1..] + b;
      FilterSplits(a[1..], b, query);
    } else {
      assert a + b == b;
    }
  }

  /** The search ignores the case of the query. */
  lemma SearchIgnoresCase(users: seq<AccountView>, searchQuery: string)
    ensures SearchFilter(users, ToLower(searchQuery)) == SearchFilter(users, searchQuery)
  {
    forall i | 0 <= i < |searchQuery| ensures IsSpace(ToLower(searchQuery)[i]) <==> IsSpace(searchQuery[i]) {
      LowerKeepsSpace(searchQuery[i]);
    }
    ToLowerIdempotent(searchQuery);
  }

  // ---------------------------------------------------------------- statistics

  datatype Stats = Stats(total: nat, active: nat, inactive: int)

  /** The rows' statuses, in order. */
  function Statuses(users: seq<AccountView>): (r: seq<Status>)
    ensures |r| == |users| && forall i | 0 <= i < |users| :: r[i] == users[i].status
  {
    seq(|users|, i requires 0 <= i < |users| => users[i].status)
  }

  /** `users.filter(u => u.status === st).length`: the number of rows with
      that status. */
  function CountStatus(users: seq<AccountView>, st: Status): (n: nat)
    ensures n == multiset(Statuses(users))[st]
    ensures n <= |users|
    decreases |users|
  {
    if |users| == 0 then 0
    else
      assert Statuses(users) == [users[0].status] + Statuses(users[1..]);
      (if users[0].status == st then 1 else 0) + CountStatus(users[1..], st)
  }

  /** The cards: total, active, and the difference as inactive. */
  function ComputeStats(users: seq<AccountView>): (st: Stats)
    ensures st.total == |users| && st.active == CountStatus(users, Active)
    ensures st.inactive == CountStatus(users, Inactive) && st.inactive >= 0
    ensures st.active + st.inactive == st.total
  {
    StatusesPartition(users);
    var total := |users|;
    var active := CountStatus(users, Active);
    Stats(total, active, total - active)
  }

  /** Every account is either active or inactive, so the two counts add up. */
  lemma {:induction false} StatusesPartition(users: seq<AccountView>)
    ensures CountStatus(users, Active) + CountStatus(users, Inactive) == |users|
    decreases |users|
  {
    if |users| > 0 {
      StatusesPartition(users[1..]);
    }
  }

  // ---------------------------------------------------------------- pages

  /** `api.getAllUsers(page)` always asks for ten per page. */
  const PageSize := 10

  /** `data.pagination?.totalPages || 1`: a missing or zero page count becomes 1. */
  function TotalPagesOrDefault(pages: Option<int>): (n: int)
    ensures pages.None? ==> n == 1
    ensures pages.Some? && pages.value == 0 ==> n == 1
    ensures pages.Some? && pages.value != 0 ==> n == pages.value
  {
    match pages
    case None => 1
    case Some(p) => if p == 0 then 1 else p
  }

  /** What the dashboard holds once `loadUsers` has stored a listing answer:
      the rows, the rows shown, the page count and the cards. */
  datatype Loaded = Loaded(users: seq<AccountView>, filtered: seq<AccountView>, totalPages: int, stats: Stats)

  /** `loadUsers` resets the shown rows to all rows, but `setUsers` also
      re-runs the `[searchQuery, users]` effect, which filters them again by
      the search box's current text. */
  function Load(users: seq<AccountView>, pagination: Option<Pagination>, searchQuery: string): (l: Loaded)
    ensures l.users == users
    ensures IsBlank(searchQuery) ==> l.filtered == users
    ensures |l.filtered| <= |users|
    ensures l.totalPages != 0
    ensures pagination.Some? && pagination.value.totalPages != 0 ==> l.totalPages == pagination.value.totalPages
    ensures l.stats.total == |users| && l.stats.active == multiset(Statuses(users))[Active]
  {
    var pages := match pagination case None => None case Some(p) => Some(p.totalPages);
    Loaded(users, SearchFilter(users, searchQuery), TotalPagesOrDefault(pages), ComputeStats(users))
  }

  /** After a load the table shows exactly the returned rows that match the
      search box (all of them when it is blank), in the server's order. */
  lemma LoadShowsMatches(users: seq<AccountView>, pagination: Option<Pagination>, searchQuery: string, u: AccountView)
    ensures u in Load(users, pagination, searchQuery).filtered <==>
              u in users && (IsBlank(searchQuery) || SearchHit(u, ToLower(searchQuery)))
    ensures IsSubsequence(Load(users, pagination, searchQuery).filtered, users)
  {
    TrimEmptyIffBlank(searchQuery);
    if IsBlank(searchQuery) {
      SubsequenceOfItself(users);
    } else {
      FilterMembership(users, ToLower(searchQuery), u);
      FilterIsSubsequence(users, ToLower(searchQuery));
    }
  }

  lemma {:induction false} SubsequenceOfItself<T>(s: seq<T>)
    ensures IsSubsequence(s, s)
    decreases |s|
  {
    if |s| > 0 {
      SubsequenceOfItself(s[1..]);
    }
  }

  /** Loading page `page` from the server: the page count is at least one
      and covers the collection, and the cards count the ten rows of this
      page only, not the whole collection. */
  lemma LoadFromServer(s: Store, page: nat, searchQuery: string)
    requires page >= 1
    ensures var answer := UserController.GetUsers(s, Some(page), Some(PageSize)).response;
            && answer.status == 200 && answer.body.ListBody?
            && var l := Load(answer.body.users, Some(answer.body.pagination), searchQuery);
            && l.totalPages >= 1
            && (|s| > 0 ==> (l.totalPages - 1) * PageSize < |s| <= l.totalPages * PageSize)
            && l.stats.total <= PageSize
            && (|s| > PageSize && page == 1 ==> l.stats.total == PageSize < |s|)
  {
    var answer := UserController.GetUsers(s, Some(page), Some(PageSize)).response;
    assert (page - 1) * PageSize >= 0;
    var pages := answer.body.pagination.totalPages;
    if |s| > 0 {
      assert pages >= 1 by {
        if pages < 1 {
          UserController.MulMonotone(pages, 0, PageSize);
        }
      }
    }
  }

  /** `handlePageChange`: the page moves only to a number in `1..totalPages`. */
  function HandlePageChange(page: int, totalPages: int, newPage: int): (r: int)
    ensures 1 <= newPage <= totalPages ==> r == newPage
    ensures !(1 <= newPage <= totalPages) ==> r == page
    ensures 1 <= page <= totalPages ==> 1 <= r <= totalPages
  {
    if newPage >= 1 && newPage <= totalPages then newPage else page
  }

  /** One position of the page-number strip. */
  datatype Slot = PageButton(number: int, current: bool) | Gap | NoSlot

  /** The slot for `pageNum`: a button for the first, the last, and the
      pages next to the current one; an ellipsis two away; nothing else. */
  function SlotFor(pageNum: int, page: int, totalPages: int): Slot {
    if pageNum == 1 || pageNum == totalPages || (pageNum >= page - 1 && pageNum <= page + 1) then
      PageButton(pageNum, page == pageNum)
    else if pageNum == page - 2 || pageNum == page + 2 then Gap
    else NoSlot
  }

  /** `[...Array(totalPages)].map(...)`: one slot per page number. */
  function PageSlots(page: int, totalPages: nat): (r: seq<Slot>)
    ensures |r| == totalPages
    ensures forall i | 0 <= i < |r| :: r[i] == SlotFor(i + 1, page, totalPages)
  {
    seq(totalPages, i requires 0 <= i < totalPages => SlotFor(i + 1, page, totalPages))
  }

  /** Which numbers get a button, which an ellipsis, and where the
      highlighted button is. */
  lemma SlotsShape(page: int, totalPages: nat, i: nat)
    requires i < totalPages
    ensures var r := PageSlots(page, totalPages)[i];
            && (r.PageButton? <==> i + 1 == 1 || i + 1 == totalPages || UserController.Abs(i + 1 - page) <= 1)
            && (r.PageButton? ==> r.number == i + 1 && (r.current <==> i + 1 == page))
            && (r.Gap? <==> 1 < i + 1 < totalPages && UserController.Abs(i + 1 - page) == 2)
  {
  }

  /** Clicking any numbered button moves to that page. */
  lemma ButtonClicksAccepted(page: int, totalPages: nat, i: nat)
    requires i < totalPages && PageSlots(page, totalPages)[i].PageButton?
    ensures HandlePageChange(page, totalPages, PageSlots(page, totalPages)[i].number) == i + 1
  {
  }

  /** With the page in range, every page without a button or an ellipsis
      lies beyond an ellipsis on its side of the current page. */
  lemma HiddenPagesMarked(page: int, totalPages: nat, i: nat)
    requires 1 <= page <= totalPages && i < totalPages
    requires PageSlots(page, totalPages)[i].NoSlot?
    ensures i + 1 < page ==> i < page - 3
    ensures i + 1 < page ==> i + 1 < page - 2 && PageSlots(page, totalPages)[page - 3].Gap?
    ensures i + 1 > page ==> i + 1 > page + 2 && PageSlots(page, totalPages)[page + 1].Gap?
  {
    var r := PageSlots(page, totalPages);
    if i + 1 < page {
      assert r[page - 3] == SlotFor(page - 2, page, totalPages);
    } else {
      assert r[page + 1] == SlotFor(page + 2, page, totalPages);
    }
  }

  /** The prev/next arrows, shown only when there is more than one page. */
  datatype Arrows = NoArrows | Arrows(prevDisabled: bool, nextDisabled: bool)

  function PageArrows(page: int, totalPages: int): (a: Arrows)
    ensures a.Arrows? <==> totalPages > 1
  {
    if totalPages > 1 then Arrows(page == 1, page == totalPages) else NoArrows
  }

  /** An enabled arrow moves by exactly one page; a disabled one would not
      move the page even if clicked. */
  lemma ArrowsMoveByOne(page: int, totalPages: int)
    requires 1 <= page <= totalPages
    ensures var a := PageArrows(page, totalPages);
            && (a.Arrows? && !a.prevDisabled ==> HandlePageChange(page, totalPages, page - 1) == page - 1)
            && (a.Arrows? && !a.nextDisabled ==> HandlePageChange(page, totalPages, page + 1) == page + 1)
            && (a.Arrows? && a.prevDisabled ==> HandlePageChange(page, totalPages, page - 1) == page)
            && (a.Arrows? && a.nextDisabled ==> HandlePageChange(page, totalPages, page + 1) == page)
  {
  }

  // ---------------------------------------------------------------- row action

  /** The row's button asks for the other status: Deactivate for an active
      account, Activate otherwise. */
  function RowAction(current: Status): (action: Status)
    ensures action != current
  {
    match current
    case Active => Inactive
    case Inactive => Active
  }

  /** The success toast of `handleStatusChange`. */
  function StatusToast(action: Status): string {
    if action == Active then "User activated successfully" else "User deactivated successfully"
  }

  /** Confirming the row action on another account flips its status on the
      server, which answers with the same words as the toast. */
  lemma RowActionFlipsStatus(s: Store, caller: Identity, i: nat)
    requires ValidStore(s) && i < |s| && s[i].id != caller.id
    ensures var action := RowAction(s[i].status);
            var r := UserController.UpdateStatus(s, caller, s[i].id, StatusName(action));
            && r.response.status == 200
            && r.store == s[i := s[i].(status := action)]
            && r.store[i].status != s[i].status
            && r.response.body.message == Some(StatusToast(action))
  {
    var action := RowAction(s[i].status);
    ParseStatusName(action);
    var k := IndexOfId(s, s[i].id);
    assert k.Some?;
    IdIsKey(s, k.value, i);
  }

  /** Confirming the row action on another account twice puts the
      collection back exactly as it was. */
  lemma RowActionTwiceRestores(s: Store, caller: Identity, i: nat)
    requires ValidStore(s) && i < |s| && s[i].id != caller.id
    ensures var t := UserController.UpdateStatus(s, caller, s[i].id, StatusName(RowAction(s[i].status))).store;
            && i < |t|
            && UserController.UpdateStatus(t, caller, t[i].id, StatusName(RowAction(t[i].status))).store == s
  {
    RowActionFlipsStatus(s, caller, i);
    var t := UserController.UpdateStatus(s, caller, s[i].id, StatusName(RowAction(s[i].status))).store;
    assert t[i].id == s[i].id;
    RowActionFlipsStatus(t, caller, i);
    var u := UserController.UpdateStatus(t, caller, t[i].id, StatusName(RowAction(t[i].status))).store;
    assert u[i] == s[i];
    assert forall j | 0 <= j < |s| && j != i :: u[j] == t[j] == s[j];
  }
}
