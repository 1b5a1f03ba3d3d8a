/**
 * The HTTP API of the dashboard: the session gate, login/logout/check-auth,
 * the searchable and paged license list, the status counts and the revoke
 * endpoint. A `Session` holds the one claim the session carries (`isAdmin`);
 * the registry is the `LicenseTable`.
 */
module WebApi {
  import opened Options
  import opened Js
  import opened Registry

  /** The server-side session state of one browser. An absent `isAdmin` is `false`. */
  class Session {
    var isAdmin: bool

    constructor ()
      ensures !isAdmin
    {
      isAdmin := false;
    }
  }

  datatype Body =
    | ErrorBody(error: string)
    | SuccessBody
    | AuthBody(authenticated: bool)
    | ListBody(licenses: seq<License>, total: nat, page: int, totalPages: int)
    | StatsBody(total: nat, active: nat, revoked: nat)
    | RevokeBody(license: License)

  datatype Response = Response(status: nat, body: Body)

  /** The rows every list and stats request starts from: `getAllLicenses(10000, 0)`. */
  const FetchAllLimit: nat := 10000
  const DefaultPage: int := 1
  const DefaultLimit: int := 50
  const DefaultAdminId: string := "web-admin"

  const Unauthorized: Response := Response(401, ErrorBody("Unauthorized"))

  /**
   * The `isAuthenticated` middleware: `None` means it calls `next()` and the
   * route runs; otherwise the 401 it sends instead.
   */
  function IsAuthenticated(session: Session): (r: Option<Response>)
    reads session
    ensures r.None? <==> session.isAdmin
    ensures r.Some? ==> r.value.status == 401
  {
    if session.isAdmin then None else Some(Unauthorized)
  }

  /**
   * POST /api/login: the session becomes admin exactly when the submitted
   * password equals the configured one; a wrong or missing password gives 401
   * and leaves the session as it was. The configured password is never empty
   * (the server refuses to start without it).
   */
  method Login(session: Session, password: Option<string>, adminPassword: string) returns (resp: Response)
    requires adminPassword != ""
    modifies session
    ensures password == Some(adminPassword) ==> session.isAdmin && resp == Response(200, SuccessBody)
    ensures password != Some(adminPassword) ==>
      session.isAdmin == old(session.isAdmin) && resp == Response(401, ErrorBody("Invalid password"))
  {
    if password == Some(adminPassword) {
      session.isAdmin := true;
      resp := Response(200, SuccessBody);
    } else {
      resp := Response(401, ErrorBody("Invalid password"));
    }
  }

  /** POST /api/logout: the session is destroyed, so the next request is not admin. */
  method Logout(session: Session) returns (resp: Response)
    modifies session
    ensures !session.isAdmin
    ensures resp == Response(200, SuccessBody)
  {
    session.isAdmin := false;
    resp := Response(200, SuccessBody);
  }

  /** GET /api/check-auth: reports the session's admin claim, absent counting as false. */
  method CheckAuth(session: Session) returns (resp: Response)
    ensures resp.status == 200
    ensures resp.body.AuthBody? && (resp.body.authenticated <==> session.isAdmin)
  {
    resp := Response(200, AuthBody(session.isAdmin));
  }

  /** The query string of GET /api/licenses, `page` and `limit` already through `parseInt` (`None` is NaN). */
  datatype ListQuery = ListQuery(page: Option<int>, limit: Option<int>, search: Option<string>)

  /** The search filter: the lower-cased username, license_key or user_id contains `needle`. */
  predicate Matches(l: License, needle: string) {
    Includes(ToLowerCase(l.username), needle)
    || Includes(ToLowerCase(l.licenseKey), needle)
    || Includes(ToLowerCase(l.userId), needle)
  }

  /** `licenses.filter(...)` with the search predicate: the matching rows, each as often as it occurs. */
  function FilterMatching(ls: seq<License>, needle: string): (r: seq<License>)
    ensures |r| <= |ls|
    ensures forall l :: multiset(r)[l] == if Matches(l, needle) then multiset(ls)[l] else 0
    ensures forall i :: 0 <= i < |r| ==> Matches(r[i], needle)
  {
    if |ls| == 0 then []
    else
      assert ls == [ls[0]] + ls[1..];
      var rest := FilterMatching(ls[1..], needle);
      if Matches(ls[0], needle) then [ls[0]] + rest else rest
  }

  /** Filtering keeps the newest-first order of the fetched page. */
  lemma {:induction false} FilterKeepsOrder(ls: seq<License>, needle: string)
    requires SortedByActivation(ls)
    ensures SortedByActivation(FilterMatching(ls, needle))
  {
    if |ls| > 0 {
      var rest := FilterMatching(ls[1..], needle);
      KeptAfterHead(ls, rest);
      FilterKeepsOrder(ls[1..], needle);
      if Matches(ls[0], needle) {
        ConsSorted(ls[0], rest);
      }
    }
  }

  /** Rows kept from the tail of a list sorted by activation are no newer than its head. */
  lemma KeptAfterHead(ls: seq<License>, kept: seq<License>)
    requires SortedByActivation(ls) && |ls| > 0
    requires multiset(kept) <= multiset(ls[1..])
    ensures SortedByActivation(ls[1..])
    ensures forall y | y in kept :: ls[0].activatedAt >= y.activatedAt
  {
    HeadIsNewest(ls);
    forall y | y in kept ensures ls[0].activatedAt >= y.activatedAt {
      assert y in multiset(ls[1..]);
      assert y in ls;
    }
  }

  /**
   * The search step of GET /api/licenses: an empty search leaves the list and
   * its total as fetched; a non-empty one keeps exactly the rows matching the
   * lower-cased search, and the total becomes their number.
   */
  function ApplySearch(fetched: LicensePage, search: string): (r: LicensePage)
    ensures search == "" ==> r == fetched
    ensures search != "" ==> r.total == |r.licenses|
    ensures search != "" ==>
      forall l :: multiset(r.licenses)[l] == if Matches(l, ToLowerCase(search)) then multiset(fetched.licenses)[l] else 0
    ensures SortedByActivation(fetched.licenses) ==> SortedByActivation(r.licenses)
  {
    if search == "" then fetched
    else
      var kept := FilterMatching(fetched.licenses, ToLowerCase(search));
      assert SortedByActivation(fetched.licenses) ==> SortedByActivation(kept) by {
        if SortedByActivation(fetched.licenses) {
          FilterKeepsOrder(fetched.licenses, ToLowerCase(search));
        }
      }
      LicensePage(kept, |kept|)
  }

  /** `parseInt(req.query.page) || 1`. */
  function PageOf(query: ListQuery): int {
    OrDefault(query.page, DefaultPage)
  }

  /** `parseInt(req.query.limit) || 50`. */
  function LimitOf(query: ListQuery): int {
    OrDefault(query.limit, DefaultLimit)
  }

  /** The fetched rows after the search step, with the total the response reports. */
  function Found(rows: seq<License>, query: ListQuery): LicensePage {
    ApplySearch(GetAllLicenses(rows, FetchAllLimit, 0), query.search.GetOr(""))
  }

  /** `(page - 1) * limit`. */
  function OffsetOf(query: ListQuery): int {
    (PageOf(query) - 1) * LimitOf(query)
  }

  /** `licenses.slice(offset, offset + limit)`. */
  function Paginate(found: seq<License>, query: ListQuery): seq<License> {
    Slice(found, OffsetOf(query), OffsetOf(query) + LimitOf(query))
  }

  /** The body GET /api/licenses answers with for an admin session. */
  function ListLicensesBody(rows: seq<License>, query: ListQuery): Body {
    var found := Found(rows, query);
    ListBody(Paginate(found.licenses, query),
      found.total, PageOf(query), CeilDiv(found.total, LimitOf(query)))
  }

  /** GET /api/licenses behind the session gate. */
  method ListLicenses(session: Session, table: LicenseTable, query: ListQuery) returns (resp: Response)
    ensures !session.isAdmin ==> resp == Unauthorized
    ensures session.isAdmin ==> resp == Response(200, ListLicensesBody(table.rows, query))
  {
    var gate := IsAuthenticated(session);
    if gate.Some? {
      return gate.value;
    }
    resp := Response(200, ListLicensesBody(table.rows, query));
  }

  /** With a page and a limit that are not negative, the slice is the `LIMIT`/`OFFSET` window. */
  lemma PaginateWindow(found: seq<License>, query: ListQuery)
    requires query.page.Some? ==> query.page.value >= 0
    requires query.limit.Some? ==> query.limit.value >= 0
    ensures OffsetOf(query) >= 0 && LimitOf(query) >= 1 &&
      Paginate(found, query) == Window(found, OffsetOf(query), LimitOf(query))
  {
    ListBounds(query);
    SliceWindow(found, OffsetOf(query), LimitOf(query));
  }

  /**
   * `slice(offset, offset + limit)` with a non-negative offset is the window
   * `LIMIT limit OFFSET offset` the registry pages with.
   */
  lemma SliceWindow<T>(s: seq<T>, offset: nat, limit: nat)
    ensures Slice(s, offset, offset + limit) == Window(s, offset, limit)
  {
  }

  /** Keeps the nonlinear step of `(page - 1) * limit >= 0` out of the larger proofs. */
  lemma NonNegativeProduct(a: int, b: int)
    requires a >= 0 && b >= 0
    ensures a * b >= 0
  {
  }

  /**
   * With a page and a limit that are not negative, the page and the limit in
   * use are at least 1 and the offset `(page - 1) * limit` is not negative.
   */
  lemma ListBounds(query: ListQuery)
    requires query.page.Some? ==> query.page.value >= 0
    requires query.limit.Some? ==> query.limit.value >= 0
    ensures PageOf(query) >= 1 && LimitOf(query) >= 1 && OffsetOf(query) >= 0
    ensures query.page.None? || query.page.value == 0 ==> PageOf(query) == DefaultPage
    ensures query.limit.None? || query.limit.value == 0 ==> LimitOf(query) == DefaultLimit
  {
    NonNegativeProduct(PageOf(query) - 1, LimitOf(query));
  }

  /**
   * With a page and a limit that are not negative, the listed rows are the
   * window of `limit` found rows at offset `(page - 1) * limit`, cut to the
   * list: the same `LIMIT`/`OFFSET` window the registry pages with.
   */
  lemma ListWindow(rows: seq<License>, query: ListQuery)
    requires query.page.Some? ==> query.page.value >= 0
    requires query.limit.Some? ==> query.limit.value >= 0
    ensures OffsetOf(query) >= 0 && LimitOf(query) >= 1 &&
      ListLicensesBody(rows, query).licenses == Window(Found(rows, query).licenses, OffsetOf(query), LimitOf(query))
  {
    PaginateWindow(Found(rows, query).licenses, query);
  }

  /** The found rows are newest activation first, with or without a search. */
  lemma FoundSorted(rows: seq<License>, query: ListQuery)
    ensures SortedByActivation(Found(rows, query).licenses)
  {
    PageContents(rows, FetchAllLimit, 0);
  }

  /** With a page and a limit that are not negative, the listed rows are newest activation first. */
  lemma ListedNewestFirst(rows: seq<License>, query: ListQuery)
    requires query.page.Some? ==> query.page.value >= 0
    requires query.limit.Some? ==> query.limit.value >= 0
    ensures SortedByActivation(ListLicensesBody(rows, query).licenses)
  {
    ListWindow(rows, query);
    FoundSorted(rows, query);
    WindowSorted(Found(rows, query).licenses, OffsetOf(query), LimitOf(query));
  }

  /**
   * The reported total is the number of found rows after a search and the
   * table's row count without one; the reported page is the requested one;
   * `totalPages` is `ceil(total / limit)`.
   */
  lemma ListTotal(rows: seq<License>, query: ListQuery)
    ensures ListLicensesBody(rows, query).total == Found(rows, query).total
    ensures query.search.GetOr("") == "" ==> ListLicensesBody(rows, query).total == |rows|
    ensures query.search.GetOr("") != "" ==> ListLicensesBody(rows, query).total == |Found(rows, query).licenses|
    ensures ListLicensesBody(rows, query).page == PageOf(query)
    ensures ListLicensesBody(rows, query).totalPages == CeilDiv(Found(rows, query).total, LimitOf(query))
  {
  }

  /** Number of rows with status `s`: `filter(l => l.status === s).length`. */
  function CountStatus(ls: seq<License>, s: Status): (n: nat)
    ensures n <= |ls|
    ensures n == |ls| <==> forall i :: 0 <= i < |ls| ==> ls[i].status == s
  {
    if |ls| == 0 then 0
    else (if ls[0].status == s then 1 else 0) + CountStatus(ls[1..], s)
  }

  /** The two status counts partition the rows. */
  lemma {:induction false} StatusCountsPartition(ls: seq<License>)
    ensures CountStatus(ls, Active) + CountStatus(ls, Revoked) == |ls|
  {
    if |ls| > 0 {
      StatusCountsPartition(ls[1..]);
    }
  }

  /** Counting by status does not depend on the order of the rows. */
  lemma {:induction false} CountStatusPermutation(a: seq<License>, b: seq<License>, s: Status)
    requires multiset(a) == multiset(b)
    ensures CountStatus(a, s) == CountStatus(b, s)
    decreases |a|
  {
    if |a| == 0 {
      assert |b| == |multiset(b)| == 0;
    } else {
      var x := a[0];
      assert x in multiset(b);
      var j :| 0 <= j < |b| && b[j] == x;
      var b' := b[..j] + b[j + 1..];
      MultisetRemove(b, j);
      assert a == [x] + a[1..];
      assert multiset(a[1..]) == multiset(a) - multiset{x};
      CountStatusPermutation(a[1..], b', s);
      CountStatusRemove(b, j, s);
    }
  }

  lemma MultisetRemove(b: seq<License>, j: nat)
    requires j < |b|
    ensures multiset(b[..j] + b[j + 1..]) == multiset(b) - multiset{b[j]}
  {
    assert b == b[..j] + [b[j]] + b[j + 1..];
  }

  lemma CountStatusRemove(b: seq<License>, j: nat, s: Status)
    requires j < |b|
    ensures CountStatus(b, s) == CountStatus(b[..j] + b[j + 1..], s) + (if b[j].status == s then 1 else 0)
  {
    assert b == b[..j] + ([b[j]] + b[j + 1..]);
    CountStatusSplit(b[..j], [b[j]] + b[j + 1..], s);
    CountStatusSplit(b[..j], b[j + 1..], s);
    assert ([b[j]] + b[j + 1..])[1..] == b[j + 1..];
  }

  lemma {:induction false} CountStatusSplit(a: seq<License>, b: seq<License>, s: Status)
    ensures CountStatus(a + b, s) == CountStatus(a, s) + CountStatus(b, s)
    decreases |a|
  {
    if |a| > 0 {
      assert (a + b)[1..] == a[1..] + b;
      CountStatusSplit(a[1..], b, s);
    } else {
      assert a + b == b;
    }
  }

  /** GET /api/stats for an admin session: counted over the first 10000 fetched rows. */
  function StatsBodyOf(rows: seq<License>): Body {
    var fetched := GetAllLicenses(rows, FetchAllLimit, 0).licenses;
    StatsBody(|fetched|, CountStatus(fetched, Active), CountStatus(fetched, Revoked))
  }

  /**
   * The stats: `total` is the row count capped at 10000 (the fetch limit),
   * `active + revoked == total`, and on a table of at most 10000 rows the
   * counts are those of the whole table.
   */
  lemma StatsCounts(rows: seq<License>)
    ensures var b := StatsBodyOf(rows);
      && b.total == (if |rows| < FetchAllLimit then |rows| else FetchAllLimit)
      && b.active + b.revoked == b.total
      && (|rows| <= FetchAllLimit ==>
            b.total == |rows| && b.active == CountStatus(rows, Active) && b.revoked == CountStatus(rows, Revoked))
  {
    var fetched := GetAllLicenses(rows, FetchAllLimit, 0).licenses;
    StatusCountsPartition(fetched);
    if |rows| <= FetchAllLimit {
      var sorted := SortByActivation(rows);
      assert fetched == sorted;
      CountStatusPermutation(fetched, rows, Active);
      CountStatusPermutation(fetched, rows, Revoked);
    }
  }

  /** GET /api/stats behind the session gate. */
  method Stats(session: Session, table: LicenseTable) returns (resp: Response)
    ensures !session.isAdmin ==> resp == Unauthorized
    ensures session.isAdmin ==> resp == Response(200, StatsBodyOf(table.rows))
  {
    var gate := IsAuthenticated(session);
    if gate.Some? {
      return gate.value;
    }
    resp := Response(200, StatsBodyOf(table.rows));
  }

  /** `req.body.adminId || 'web-admin'`. */
  function RevokerOf(adminId: Option<string>): (r: string)
    ensures adminId.Some? && adminId.value != "" ==> r == adminId.value
    ensures adminId.None? || adminId.value == "" ==> r == DefaultAdminId
    ensures r != ""
  {
    if adminId.None? || adminId.value == "" then DefaultAdminId else adminId.value
  }

  /**
   * POST /api/revoke/:userId behind the session gate. No license: 404 and no
   * change. Already revoked: 400 and no change. Otherwise the license is
   * revoked by `adminId` (or "web-admin" when none is given) and the updated
   * row comes back with 200.
   */
  method RevokeEndpoint(session: Session, table: LicenseTable, userId: string, adminId: Option<string>, now: nat)
    returns (resp: Response)
    requires table.Valid()
    modifies table
    ensures table.Valid()
    ensures table.nextId == old(table.nextId)
    ensures !session.isAdmin ==> resp == Unauthorized && table.rows == old(table.rows)
    ensures session.isAdmin ==>
      var admin := RevokerOf(adminId);
      match old(GetLicenseByUserId(table.rows, userId))
      case None =>
        resp == Response(404, ErrorBody("License not found")) && table.rows == old(table.rows)
      case Some(l) =>
        if l.status == Revoked then
          resp == Response(400, ErrorBody("License already revoked")) && table.rows == old(table.rows)
        else
          && resp == Response(200, RevokeBody(Revocation(l, admin, now)))
          && table.rows == RevokeRows(old(table.rows), userId, admin, now)
  {
    var gate := IsAuthenticated(session);
    if gate.Some? {
      return gate.value;
    }
    var admin := RevokerOf(adminId);
    var license := GetLicenseByUserId(table.rows, userId);
    if license.None? {
      return Response(404, ErrorBody("License not found"));
    }
    if license.value.status == Revoked {
      return Response(400, ErrorBody("License already revoked"));
    }
    var revoked := table.RevokeLicense(userId, admin, now);
    resp := Response(200, RevokeBody(revoked.value));
  }
}
