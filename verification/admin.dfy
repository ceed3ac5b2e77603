/** The admin panel's reports (src/modules/admin/admin.service.ts): the
    dashboard counters, a page of the user list newest first, one user's
    details, and the referral leaderboard. All of them only read the tables. */
module Admin {
  import opened Base
  import Users
  import Tariffs
  import Dialogs
  import Referrals

  type User = Users.User
  type Grant = Tariffs.Grant
  type Referral = Referrals.Referral

  datatype PaymentStatus = PaymentPending | PaymentCompleted | PaymentFailed

  /** A row of `payments`; amounts are kept in cents. */
  datatype Payment = Payment(id: nat, userId: nat, tariffId: nat, amountCents: int, status: PaymentStatus)

  /** The counters of `getDashboardStats` (the revenue sum is not modelled). */
  datatype Dashboard = Dashboard(totalUsers: nat, activeUsers: nat, totalMessages: nat, totalPayments: nat)

  /** What `getUsers` returns. */
  datatype UserPage = UserPage(users: seq<User>, total: nat, page: int, totalPages: int)

  /** What `getUserDetails` returns: the user with its loaded relations and
      the number of messages filed under its id (its texts and the bot's
      answers to them). */
  datatype UserDetails = UserDetails(
    user: User,
    grants: seq<Grant>,
    dialogs: seq<Dialogs.Dialog>,
    referralsGiven: seq<Referral>,
    referralsReceived: seq<Referral>,
    messageCount: nat)

  /** A group of the leaderboard query: a referrer and its number of referrals. */
  datatype TopReferrer = TopReferrer(referrerId: nat, count: nat)

  /** A leaderboard line as shown: the referrer's label and the count. */
  datatype LeaderLine = LeaderLine(user: string, count: nat)

  /** What the admin `getReferralStats` returns. */
  datatype ReferralReport = ReferralReport(totalReferrals: nat, processedReferrals: nat, topReferrers: seq<LeaderLine>)

  const DefaultPage: int := 1
  const DefaultPageSize: int := 20

  /** `.limit(10)` on the leaderboard. */
  const TopSize: nat := 10

  const UnknownLabel: string := "Unknown"

  // ---------------------------------------------------------------------------
  // Dashboard
  // ---------------------------------------------------------------------------

  predicate IsActive(g: Grant)
  {
    g.isActive
  }

  /** The users holding an active grant. */
  ghost function ActiveUserIds(grants: seq<Grant>): set<nat>
  {
    set i | 0 <= i < |grants| && grants[i].isActive :: grants[i].userId
  }

  /** `getDashboardStats()` without the revenue: row counts of the tables,
      where `activeUsers` counts the active grants. */
  function GetDashboardStats(reg: Users.Registry, l: Tariffs.Ledger, store: Dialogs.Store,
                             payments: seq<Payment>): (r: Dashboard)
    ensures r.totalUsers == |reg.users| && r.totalMessages == |store.messages|
    ensures r.totalPayments == |payments|
    ensures r.activeUsers == Count(l.grants, IsActive)
    ensures r.activeUsers <= |l.grants|
    ensures r.activeUsers == 0 <==> forall i :: 0 <= i < |l.grants| ==> !l.grants[i].isActive
  {
    var active := Filter(l.grants, IsActive);
    FilterCountBound(l.grants, IsActive, (g: Grant) => true);
    FilterAll(l.grants, (g: Grant) => true);
    if |active| == 0 then
      FilterEmpty(l.grants, IsActive);
      Dashboard(|reg.users|, 0, |store.messages|, |payments|)
    else
      assert IsActive(active[0]);
      FilterMembership(l.grants, IsActive, active[0]);
      Dashboard(|reg.users|, |active|, |store.messages|, |payments|)
  }

  /** With at most one active grant per user, which every ledger operation
      keeps, counting active grants counts the users that hold one. */
  lemma {:induction false} ActiveGrantsAreActiveUsers(grants: seq<Grant>)
    requires Tariffs.AtMostOneActive(grants)
    ensures Count(grants, IsActive) == |ActiveUserIds(grants)|
    decreases |grants|
  {
    if |grants| > 0 {
      var init := grants[..|grants| - 1];
      var x := grants[|grants| - 1];
      assert grants == init + [x];
      assert Tariffs.AtMostOneActive(init) by {
        forall i, j | 0 <= i < |init| && 0 <= j < |init|
          && init[i].isActive && init[j].isActive && init[i].userId == init[j].userId
          ensures i == j
        {
          assert init[i] == grants[i] && init[j] == grants[j];
        }
      }
      ActiveGrantsAreActiveUsers(init);
      FilterAppend(init, x, IsActive);
      ActiveIdsAppend(init, x);
      if x.isActive {
        assert x.userId !in ActiveUserIds(init) by {
          forall i | 0 <= i < |init| && init[i].isActive
            ensures init[i].userId != x.userId
          {
            assert grants[i] == init[i];
          }
        }
      }
    }
  }

  /** Appending a grant adds its user to the active users exactly when the
      grant is active. */
  lemma ActiveIdsAppend(init: seq<Grant>, x: Grant)
    ensures x.isActive ==> ActiveUserIds(init + [x]) == ActiveUserIds(init) + {x.userId}
    ensures !x.isActive ==> ActiveUserIds(init + [x]) == ActiveUserIds(init)
  {
    var grants := init + [x];
    forall u
      ensures u in ActiveUserIds(grants) <==> u in ActiveUserIds(init) || (x.isActive && u == x.userId)
    {
      if u in ActiveUserIds(grants) {
        var i :| 0 <= i < |grants| && grants[i].isActive && grants[i].userId == u;
        if i < |init| {
          assert init[i] == grants[i];
        }
      }
      if u in ActiveUserIds(init) {
        var i :| 0 <= i < |init| && init[i].isActive && init[i].userId == u;
        assert grants[i] == init[i];
      }
      if x.isActive && u == x.userId {
        assert grants[|init|] == x;
      }
    }
  }

  /** On a valid ledger the dashboard's `activeUsers` is the number of users
      holding an active grant. */
  lemma DashboardCountsUsers(reg: Users.Registry, l: Tariffs.Ledger, store: Dialogs.Store,
                             payments: seq<Payment>)
    requires Tariffs.Valid(l)
    ensures GetDashboardStats(reg, l, store, payments).activeUsers == |ActiveUserIds(l.grants)|
  {
    ActiveGrantsAreActiveUsers(l.grants);
  }

  /** Without that invariant the counter reports grants, not users: one user
      holding two active grants counts twice. */
  lemma ActiveCountsGrantsNotUsers()
    ensures var grants := [Tariffs.Grant(1, 7, 1, 10, 0, None, true), Tariffs.Grant(2, 7, 2, 1000, 0, None, true)];
      Count(grants, IsActive) == 2 && ActiveUserIds(grants) == {7}
  {
    var grants := [Tariffs.Grant(1, 7, 1, 10, 0, None, true), Tariffs.Grant(2, 7, 2, 1000, 0, None, true)];
    FilterAll(grants, IsActive);
    assert grants[0].isActive && grants[0].userId == 7;
  }

  // ---------------------------------------------------------------------------
  // The user list
  // ---------------------------------------------------------------------------

  /** Users were registered in order of their `created_at`. */
  ghost predicate JoinedInOrder(users: seq<User>)
  {
    forall i, j :: 0 <= i < j < |users| ==> users[i].createdAt <= users[j].createdAt
  }

  /** `order: { created_at: 'DESC' }`: the table read from its newest row. */
  function NewestFirst(users: seq<User>): (r: seq<User>)
    ensures |r| == |users|
    ensures forall k :: 0 <= k < |r| ==> r[k] == users[|users| - 1 - k]
  {
    if |users| == 0 then [] else [users[|users| - 1]] + NewestFirst(users[..|users| - 1])
  }

  /** Reading the table from its newest row does order it by descending
      `created_at` when users joined in order. */
  lemma NewestFirstIsDescending(users: seq<User>)
    requires JoinedInOrder(users)
    ensures forall i, j :: 0 <= i < j < |users| ==> NewestFirst(users)[i].createdAt >= NewestFirst(users)[j].createdAt
  {
  }

  /** `Math.ceil(total / limit)` for a positive limit: the least number of
      pages of `limit` rows that holds `total` rows. */
  function PageCount(total: nat, limit: int): (r: int)
    requires limit >= 1
    ensures r >= 0 && r * limit >= total && (r - 1) * limit < total
  {
    (total + limit - 1) / limit
  }

  /** The rows a query with `skip` and `take` returns. */
  function Window<T>(rows: seq<T>, skip: nat, take: nat): (r: seq<T>)
    ensures |r| == Min(take, if skip <= |rows| then |rows| - skip else 0)
    ensures forall k :: 0 <= k < |r| ==> skip + k < |rows| && r[k] == rows[skip + k]
  {
    if skip >= |rows| then [] else rows[skip..Min(skip + take, |rows|)]
  }

  /** The page asked for, 1 when omitted. */
  function PageNumber(page: Option<int>): int
  {
    if page.Some? then page.value else DefaultPage
  }

  /** The page size asked for, 20 when omitted. */
  function PageSize(limit: Option<int>): int
  {
    if limit.Some? then limit.value else DefaultPageSize
  }

  /** `getUsers(page = 1, limit = 20)`, an omitted argument being `None`:
      page `page` of the users newest first, with `limit` rows per page, the
      total row count, the page echoed back and the number of pages. */
  function GetUsers(users: seq<User>, page: Option<int>, limit: Option<int>): (r: UserPage)
    requires page.Some? ==> page.value >= 1
    requires limit.Some? ==> limit.value >= 1
    ensures r.page == PageNumber(page) && r.total == |users|
    // The page holds `limit` rows, fewer on the last page, none past it.
    ensures |r.users| == Min(PageSize(limit), if Skip(PageNumber(page), PageSize(limit)) <= |users|
                                               then |users| - Skip(PageNumber(page), PageSize(limit)) else 0)
    // Row k is the user (page - 1) * limit + k places from the newest.
    ensures forall k :: 0 <= k < |r.users| ==>
      && Skip(PageNumber(page), PageSize(limit)) + k < |users|
      && r.users[k] == users[|users| - 1 - (Skip(PageNumber(page), PageSize(limit)) + k)]
  {
    var p := PageNumber(page);
    var size := PageSize(limit);
    var skip := Skip(p, size);
    var rows := Window(NewestFirst(users), skip, size);
    WindowOfNewest(users, skip, size);
    assert p == PageNumber(page) && size == PageSize(limit) && skip == Skip(PageNumber(page), PageSize(limit));
    UserPage(rows, |users|, p, PageCount(|users|, size))
  }

  /** `totalPages` is the least number of pages that holds every user, and a
      page has rows exactly up to it. */
  lemma GetUsersPageCount(users: seq<User>, page: Option<int>, limit: Option<int>)
    requires page.Some? ==> page.value >= 1
    requires limit.Some? ==> limit.value >= 1
    ensures var r := GetUsers(users, page, limit);
      && r.totalPages * PageSize(limit) >= |users| && (r.totalPages - 1) * PageSize(limit) < |users|
      && (PageNumber(page) <= r.totalPages <==> |r.users| > 0)
  {
    PageHasRows(|users|, PageNumber(page), PageSize(limit));
  }

  /** A window of the newest-first list, in terms of the table itself. */
  lemma WindowOfNewest(users: seq<User>, skip: nat, take: nat)
    ensures var w := Window(NewestFirst(users), skip, take);
      && |w| == Min(take, if skip <= |users| then |users| - skip else 0)
      && forall k :: 0 <= k < |w| ==> skip + k < |users| && w[k] == users[|users| - 1 - (skip + k)]
  {
  }

  /** `skip: (page - 1) * limit`: the rows before page `p`, `limit` rows for
      each earlier page. */
  function Skip(p: int, size: int): (r: nat)
    requires p >= 1 && size >= 1
    // The first page skips nothing; a later one skips at least a row for
    // each page before it.
    ensures r == 0 <==> p == 1
    ensures r >= p - 1
  {
    MulMonotone(1, size, p - 1);
    (p - 1) * size
  }

  /** Page `p` starts inside the table exactly up to the last page. */
  lemma PageHasRows(total: nat, p: int, size: int)
    requires p >= 1 && size >= 1
    ensures p <= PageCount(total, size) <==> Skip(p, size) < total
  {
    var pages := PageCount(total, size);
    if p <= pages {
      MulMonotone(p - 1, pages - 1, size);
    } else {
      MulMonotone(pages, p - 1, size);
    }
  }

  lemma MulMonotone(a: int, b: int, c: int)
    requires a <= b && c >= 0
    ensures a * c <= b * c
  {
    assert b * c - a * c == (b - a) * c;
  }

  /** The first `n` pages, one after the other. */
  function FirstPages(users: seq<User>, limit: int, n: nat): seq<User>
    requires limit >= 1
  {
    if n == 0 then [] else FirstPages(users, limit, n - 1) + GetUsers(users, Some(n), Some(limit)).users
  }

  /** Page `p + 1` starts `size` rows after page `p`, `p · size` rows in. */
  lemma SkipNext(p: int, size: int)
    requires p >= 1 && size >= 1
    ensures Skip(p + 1, size) == Skip(p, size) + size == p * size
  {
    assert p * size == (p - 1) * size + size;
  }

  /** Page `n` is the slice of the newest-first list between the offsets of
      pages `n` and `n + 1`, `limit` rows apart. */
  lemma PageIsSlice(users: seq<User>, limit: int, n: int)
    requires limit >= 1 && n >= 1
    ensures GetUsers(users, Some(n), Some(limit)).users
            == NewestFirst(users)[Min(Skip(n, limit), |users|)..Min(Skip(n, limit) + limit, |users|)]
  {
    PageIsWindow(users, limit, n);
    WindowIsSlice(NewestFirst(users), Skip(n, limit), limit);
  }

  /** Page `n` is the window of `limit` rows after its offset. */
  lemma PageIsWindow(users: seq<User>, limit: int, n: int)
    requires limit >= 1 && n >= 1
    ensures GetUsers(users, Some(n), Some(limit)).users == Window(NewestFirst(users), Skip(n, limit), limit)
  {
    assert PageNumber(Some(n)) == n && PageSize(Some(limit)) == limit;
  }

  /** A window is the slice between its clamped ends. */
  lemma WindowIsSlice<T>(rows: seq<T>, skip: nat, take: nat)
    ensures Window(rows, skip, take) == rows[Min(skip, |rows|)..Min(skip + take, |rows|)]
  {
  }

  /** The first `n` pages hold the `n · limit` newest users. */
  lemma {:induction false} FirstPagesArePrefix(users: seq<User>, limit: int, n: nat)
    requires limit >= 1
    ensures FirstPages(users, limit, n) == NewestFirst(users)[..Min(Skip(n + 1, limit), |users|)]
  {
    if n > 0 {
      var all := NewestFirst(users);
      var skip := Skip(n, limit);
      var lo := Min(skip, |users|);
      var hi := Min(skip + limit, |users|);
      var prev := FirstPages(users, limit, n - 1);
      var page := GetUsers(users, Some(n), Some(limit)).users;
      assert FirstPages(users, limit, n) == prev + page;
      FirstPagesArePrefix(users, limit, n - 1);
      assert prev == all[..lo];
      PageIsSlice(users, limit, n);
      assert page == all[lo..hi];
      PrefixThenSlice(all, lo, hi);
      SkipNext(n, limit);
    } else {
      assert Skip(1, limit) == 0;
    }
  }

  /** A prefix followed by the slice after it is the longer prefix. */
  lemma PrefixThenSlice<T>(s: seq<T>, lo: nat, hi: nat)
    requires lo <= hi <= |s|
    ensures s[..lo] + s[lo..hi] == s[..hi]
  {
  }

  /** Paging through all the pages lists every user exactly once, newest
      first, and there is nothing past the last page. */
  lemma PagesCoverUsers(users: seq<User>, limit: int)
    requires limit >= 1
    ensures var n := GetUsers(users, None, Some(limit)).totalPages;
      && n >= 0
      && FirstPages(users, limit, n) == NewestFirst(users)
      && GetUsers(users, Some(n + 1), Some(limit)).users == []
  {
    var n := GetUsers(users, None, Some(limit)).totalPages;
    LastPageReachesEnd(users, limit);
    assert FirstPages(users, limit, n) == NewestFirst(users) by {
      FirstPagesArePrefix(users, limit, n);
      assert NewestFirst(users)[..|users|] == NewestFirst(users);
    }
    PastTheEndIsEmpty(users, limit, n + 1);
  }

  /** The pages counted cover the table: the page after the last one starts
      at or past its end. */
  lemma LastPageReachesEnd(users: seq<User>, limit: int)
    requires limit >= 1
    ensures var n := GetUsers(users, None, Some(limit)).totalPages;
      n >= 0 && Skip(n + 1, limit) >= |users|
  {
    var n := GetUsers(users, None, Some(limit)).totalPages;
    GetUsersPageCount(users, None, Some(limit));
    assert PageSize(Some(limit)) == limit;
  }

  /** A page that starts at or past the end of the table is empty. */
  lemma PastTheEndIsEmpty(users: seq<User>, limit: int, p: int)
    requires limit >= 1 && p >= 1 && Skip(p, limit) >= |users|
    ensures GetUsers(users, Some(p), Some(limit)).users == []
  {
    var r := GetUsers(users, Some(p), Some(limit));
    assert PageNumber(Some(p)) == p && PageSize(Some(limit)) == limit;
    assert |r.users| == 0;
  }

  // ---------------------------------------------------------------------------
  // One user's details
  // ---------------------------------------------------------------------------

  /** `getUserDetails(userId)`: nothing for an unknown id; otherwise the user,
      the rows of its relations (grants, dialogs, referrals given and
      received) and the number of messages filed under its id: its texts
      and the bot's answers to them. */
  function GetUserDetails(reg: Users.Registry, l: Tariffs.Ledger, store: Dialogs.Store,
                          refs: seq<Referral>, userId: int): (r: Option<UserDetails>)
    ensures r.None? <==> forall i :: 0 <= i < |reg.users| ==> reg.users[i].id != userId
    ensures r.Some? ==> r.value.user in reg.users && r.value.user.id == userId
    ensures r.Some? ==> forall g :: g in r.value.grants <==> g in l.grants && g.userId == userId
    ensures r.Some? ==> forall d :: d in r.value.dialogs <==> d in store.dialogs && d.userId == userId
    ensures r.Some? ==> forall x :: x in r.value.referralsGiven <==> x in refs && x.referrerId == userId
    ensures r.Some? ==> forall x :: x in r.value.referralsReceived <==> x in refs && x.refereeId == userId
    ensures r.Some? ==> r.value.messageCount == Dialogs.MessagesBy(store.messages, userId)
    ensures r.Some? ==> r.value.messageCount <= |store.messages|
  {
    match Users.FindById(reg.users, userId)
    case None => None
    case Some(u) =>
      var grants := Filter(l.grants, (g: Grant) => g.userId == userId);
      var dialogs := Filter(store.dialogs, (d: Dialogs.Dialog) => d.userId == userId);
      var given := Filter(refs, (x: Referral) => x.referrerId == userId);
      var received := Filter(refs, (x: Referral) => x.refereeId == userId);
      FilterMembershipAll(l.grants, (g: Grant) => g.userId == userId);
      FilterMembershipAll(store.dialogs, (d: Dialogs.Dialog) => d.userId == userId);
      FilterMembershipAll(refs, (x: Referral) => x.referrerId == userId);
      FilterMembershipAll(refs, (x: Referral) => x.refereeId == userId);
      Some(UserDetails(u, grants, dialogs, given, received, Dialogs.MessagesBy(store.messages, userId)))
  }

  // ---------------------------------------------------------------------------
  // Referral leaderboard
  // ---------------------------------------------------------------------------

  predicate IsProcessed(x: Referral)
  {
    x.bonusGiven
  }

  /** Number of referrals with that referrer. */
  function ReferralCount(refs: seq<Referral>, referrerId: nat): nat
  {
    Count(refs, (x: Referral) => x.referrerId == referrerId)
  }

  /** The referrers, once each, in order of their first referral: the groups
      of `groupBy('r.referrer_id')`. */
  function ReferrerIds(refs: seq<Referral>): (r: seq<nat>)
    ensures Distinct(r)
    ensures forall x :: x in r <==> exists i :: 0 <= i < |refs| && refs[i].referrerId == x
  {
    if |refs| == 0 then []
    else
      var init := refs[..|refs| - 1];
      var x := refs[|refs| - 1].referrerId;
      var ids := ReferrerIds(init);
      assert forall i :: 0 <= i < |init| ==> init[i] == refs[i];
      if x in ids then ids else ids + [x]
  }

  /** A referrer of some referral has at least one. */
  lemma ReferrerCounted(refs: seq<Referral>, i: nat)
    requires i < |refs|
    ensures ReferralCount(refs, refs[i].referrerId) >= 1
  {
    var id := refs[i].referrerId;
    FilterMembership(refs, (x: Referral) => x.referrerId == id, refs[i]);
  }

  /** Each group with its `COUNT(r.id)`. */
  function Groups(refs: seq<Referral>): (r: seq<TopReferrer>)
    ensures |r| == |ReferrerIds(refs)|
    ensures forall k :: 0 <= k < |r| ==> r[k] == TopReferrer(ReferrerIds(refs)[k], ReferralCount(refs, ReferrerIds(refs)[k]))
  {
    var ids := ReferrerIds(refs);
    seq(|ids|, k requires 0 <= k < |ids| => TopReferrer(ids[k], ReferralCount(refs, ids[k])))
  }

  /** The sort key of `orderBy('count', 'DESC')`. */
  function ByCountDescending(t: TopReferrer): int
  {
    -(t.count as int)
  }

  /** The groups ordered by descending count; groups with equal counts keep
      their first-referral order (the database leaves that order open). */
  function Ranked(refs: seq<Referral>): seq<TopReferrer>
  {
    SortBy(Groups(refs), ByCountDescending)
  }

  /** What the ranking holds: exactly the groups, each once, each with its
      true count, by descending count. */
  lemma RankedFacts(refs: seq<Referral>)
    ensures var r := Ranked(refs);
      && (forall t :: t in r <==> t in Groups(refs))
      && Distinct(r)
      && (forall i, j :: 0 <= i < j < |r| ==> r[i].count >= r[j].count)
  {
    var g := Groups(refs);
    var r := Ranked(refs);
    assert forall t :: t in r <==> t in g by {
      forall t
        ensures t in r <==> t in g
      {
        assert t in multiset(r) <==> t in multiset(g);
      }
    }
    assert Distinct(g) by {
      var ids := ReferrerIds(refs);
      forall i, j | 0 <= i < j < |g|
        ensures g[i] != g[j]
      {
        assert g[i].referrerId == ids[i] && g[j].referrerId == ids[j];
      }
    }
    DistinctPermutation(g, r);
    assert forall i, j :: 0 <= i < j < |r| ==> ByCountDescending(r[i]) <= ByCountDescending(r[j]);
  }

  /** The referrer has a line on the board. */
  predicate Listed(board: seq<TopReferrer>, referrerId: nat)
  {
    exists k :: 0 <= k < |board| && board[k].referrerId == referrerId
  }

  /** The first ten of the ranking. */
  function Top(refs: seq<Referral>): seq<TopReferrer>
  {
    var ranked := Ranked(refs);
    ranked[..Min(TopSize, |ranked|)]
  }

  /** Every line of the board is a ranked group. */
  lemma TopFromGroups(refs: seq<Referral>)
    ensures forall k :: 0 <= k < |Top(refs)| ==> Top(refs)[k] == Ranked(refs)[k] && Top(refs)[k] in Groups(refs)
  {
    RankedFacts(refs);
  }

  /** Every line is a referrer with its true number of referrals. */
  lemma TopCounts(refs: seq<Referral>)
    ensures forall k :: 0 <= k < |Top(refs)| ==>
      Top(refs)[k].count == ReferralCount(refs, Top(refs)[k].referrerId) && Top(refs)[k].count >= 1
    ensures forall k :: 0 <= k < |Top(refs)| ==>
      exists i :: 0 <= i < |refs| && refs[i].referrerId == Top(refs)[k].referrerId
  {
    var top := Top(refs);
    var g := Groups(refs);
    var ids := ReferrerIds(refs);
    TopFromGroups(refs);
    forall k | 0 <= k < |top|
      ensures top[k].count == ReferralCount(refs, top[k].referrerId) && top[k].count >= 1
      ensures exists i :: 0 <= i < |refs| && refs[i].referrerId == top[k].referrerId
    {
      var m :| 0 <= m < |g| && g[m] == top[k];
      assert ids[m] in ids;
      var i :| 0 <= i < |refs| && refs[i].referrerId == ids[m];
      ReferrerCounted(refs, i);
    }
  }

  /** No referrer is listed twice. */
  lemma TopDistinct(refs: seq<Referral>)
    ensures forall i, j :: 0 <= i < j < |Top(refs)| ==> Top(refs)[i].referrerId != Top(refs)[j].referrerId
  {
    var top := Top(refs);
    var g := Groups(refs);
    RankedFacts(refs);
    TopFromGroups(refs);
    forall i, j | 0 <= i < j < |top|
      ensures top[i].referrerId != top[j].referrerId
    {
      var a :| 0 <= a < |g| && g[a] == top[i];
      var b :| 0 <= b < |g| && g[b] == top[j];
      assert Ranked(refs)[i] != Ranked(refs)[j];
    }
  }

  /** Counts never grow down the board. */
  lemma TopOrdered(refs: seq<Referral>)
    ensures forall i, j :: 0 <= i < j < |Top(refs)| ==> Top(refs)[i].count >= Top(refs)[j].count
  {
    RankedFacts(refs);
    var top := Top(refs);
    assert forall k :: 0 <= k < |top| ==> top[k] == Ranked(refs)[k];
  }

  /** A referrer left off the board: the board is full and each line has at
      least as many referrals. */
  lemma TopBeatsRest(refs: seq<Referral>, i: nat)
    requires i < |refs|
    requires !Listed(Top(refs), refs[i].referrerId)
    ensures |Top(refs)| == TopSize
    ensures forall k :: 0 <= k < |Top(refs)| ==> Top(refs)[k].count >= ReferralCount(refs, refs[i].referrerId)
  {
    var ranked := Ranked(refs);
    var top := Top(refs);
    var ids := ReferrerIds(refs);
    var g := Groups(refs);
    var id := refs[i].referrerId;
    assert id in ids;
    var m :| 0 <= m < |ids| && ids[m] == id;
    assert g[m].count == ReferralCount(refs, id) && g[m].referrerId == id;
    RankedFacts(refs);
    assert g[m] in ranked;
    var pos :| 0 <= pos < |ranked| && ranked[pos] == g[m];
    assert forall k :: 0 <= k < |top| ==> top[k] == ranked[k] && top[k].referrerId != id;
    assert pos >= |top|;
    forall k | 0 <= k < |top|
      ensures top[k].count >= ReferralCount(refs, id)
    {
      assert top[k] == ranked[k];
      assert ranked[k].count >= ranked[pos].count;
    }
  }

  lemma TopBeatsAllLeftOut(refs: seq<Referral>)
    ensures forall i :: 0 <= i < |refs| && !Listed(Top(refs), refs[i].referrerId) ==>
      |Top(refs)| == TopSize && forall k :: 0 <= k < |Top(refs)| ==> Top(refs)[k].count >= ReferralCount(refs, refs[i].referrerId)
  {
    forall i | 0 <= i < |refs| && !Listed(Top(refs), refs[i].referrerId)
      ensures |Top(refs)| == TopSize && forall k :: 0 <= k < |Top(refs)| ==> Top(refs)[k].count >= ReferralCount(refs, refs[i].referrerId)
    {
      TopBeatsRest(refs, i);
    }
  }

  /** The leaderboard query: at most ten referrers with their counts. */
  function TopReferrers(refs: seq<Referral>): (r: seq<TopReferrer>)
    ensures |r| <= TopSize
    // Every line is a referrer with its true number of referrals.
    ensures forall k :: 0 <= k < |r| ==> r[k].count == ReferralCount(refs, r[k].referrerId) && r[k].count >= 1
    ensures forall k :: 0 <= k < |r| ==> exists i :: 0 <= i < |refs| && refs[i].referrerId == r[k].referrerId
    // No referrer twice, by descending count.
    ensures forall i, j :: 0 <= i < j < |r| ==> r[i].referrerId != r[j].referrerId
    ensures forall i, j :: 0 <= i < j < |r| ==> r[i].count >= r[j].count
    // A referrer left off the board: the board is full and beats it.
    ensures forall i :: 0 <= i < |refs| && !Listed(r, refs[i].referrerId) ==>
      |r| == TopSize && forall k :: 0 <= k < |r| ==> r[k].count >= ReferralCount(refs, refs[i].referrerId)
  {
    TopCounts(refs);
    TopDistinct(refs);
    TopOrdered(refs);
    TopBeatsAllLeftOut(refs);
    Top(refs)
  }

  /** How a referrer is shown: `first_name (@username)`, or "Unknown" when
      no user has that id. A missing name renders as "null", as a template
      literal does. */
  function Label(users: seq<User>, referrerId: nat): (r: string)
    ensures r == UnknownLabel <==> Users.FindById(users, referrerId).None?
  {
    match Users.FindById(users, referrerId)
    case None => UnknownLabel
    case Some(u) =>
      var r := Shown(u.firstName) + " (@" + Shown(u.username) + ")";
      assert r[|r| - 1] != UnknownLabel[|UnknownLabel| - 1];
      r
  }

  function Shown(s: Option<string>): string
  {
    match s
    case Some(v) => v
    case None => "null"
  }

  /** The admin `getReferralStats()`: all referrals, those whose bonus was
      given, and the leaderboard with each referrer's label. */
  function GetReferralReport(refs: seq<Referral>, users: seq<User>): (r: ReferralReport)
    ensures r.totalReferrals == |refs|
    // `count({ where: { bonus_given: true } })`: the referrals whose bonus was given.
    ensures r.processedReferrals == Count(refs, IsProcessed)
    ensures r.processedReferrals <= r.totalReferrals
    ensures r.processedReferrals == r.totalReferrals <==> forall i :: 0 <= i < |refs| ==> refs[i].bonusGiven
    ensures |r.topReferrers| == |TopReferrers(refs)| <= TopSize
    ensures forall i, j :: 0 <= i < j < |r.topReferrers| ==> r.topReferrers[i].count >= r.topReferrers[j].count
    ensures forall k :: 0 <= k < |r.topReferrers| ==>
      (r.topReferrers[k].count == TopReferrers(refs)[k].count
       && r.topReferrers[k].user == Label(users, TopReferrers(refs)[k].referrerId))
  {
    var top := TopReferrers(refs);
    var processed := Filter(refs, IsProcessed);
    AllProcessed(refs);
    ReferralReport(|refs|, |processed|,
      seq(|top|, k requires 0 <= k < |top| => LeaderLine(Label(users, top[k].referrerId), top[k].count)))
  }

  /** Every referral is processed exactly when the counts agree. */
  lemma AllProcessed(refs: seq<Referral>)
    ensures Count(refs, IsProcessed) <= |refs|
    ensures Count(refs, IsProcessed) == |refs| <==> forall i :: 0 <= i < |refs| ==> refs[i].bonusGiven
  {
    if forall i :: 0 <= i < |refs| ==> refs[i].bonusGiven {
      FilterAll(refs, IsProcessed);
    } else {
      var i :| 0 <= i < |refs| && !refs[i].bonusGiven;
      ProcessedOmits(refs, i);
    }
  }

  /** A referral still pending leaves the processed count short of the total. */
  lemma {:induction false} ProcessedOmits(refs: seq<Referral>, i: nat)
    requires i < |refs| && !refs[i].bonusGiven
    ensures Count(refs, IsProcessed) < |refs|
    decreases |refs|
  {
    var init := refs[..|refs| - 1];
    var x := refs[|refs| - 1];
    assert refs == init + [x];
    FilterAppend(init, x, IsProcessed);
    if i < |init| {
      assert init[i] == refs[i];
      ProcessedOmits(init, i);
    }
  }

  /** The leaderboard agrees with each referrer's own statistics. */
  lemma LeaderboardAgreesWithReferrerStats(refs: seq<Referral>, k: nat)
    requires k < |TopReferrers(refs)|
    ensures TopReferrers(refs)[k].count == Referrals.GetReferralStats(refs, TopReferrers(refs)[k].referrerId).totalReferrals
  {
  }
}
