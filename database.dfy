/**
 * The `licenses` table and the four queries the rest of the system runs
 * against it. The table is an in-memory sequence of rows in insertion order;
 * `user_id` and `license_key` are UNIQUE, `id` is a SERIAL, and the two
 * timestamps come from a clock value passed in as `now`.
 */
module Registry {
  import opened Options

  /** The `status` column. The core only ever writes 'active' or 'revoked'. */
  datatype Status = Active | Revoked

  datatype License = License(
    id: nat,
    licenseKey: string,
    userId: string,
    username: string,
    status: Status,
    activatedAt: nat,
    revokedAt: Option<nat>,
    revokedBy: Option<string>)

  /** `revoked_at` and `revoked_by` are present exactly when the status is revoked. */
  predicate RevocationConsistent(l: License) {
    (l.status == Revoked <==> l.revokedAt.Some?) && (l.revokedAt.Some? <==> l.revokedBy.Some?)
  }

  predicate UniqueUsers(rows: seq<License>) {
    forall i, j :: 0 <= i < j < |rows| ==> rows[i].userId != rows[j].userId
  }

  predicate UniqueKeys(rows: seq<License>) {
    forall i, j :: 0 <= i < j < |rows| ==> rows[i].licenseKey != rows[j].licenseKey
  }

  predicate UniqueIds(rows: seq<License>) {
    forall i, j :: 0 <= i < j < |rows| ==> rows[i].id != rows[j].id
  }

  /** What the schema and the two write paths keep true of the table. */
  predicate WellFormed(rows: seq<License>) {
    && UniqueUsers(rows)
    && UniqueKeys(rows)
    && UniqueIds(rows)
    && forall i :: 0 <= i < |rows| ==> RevocationConsistent(rows[i])
  }

  /** An INSERT of (`userId`, `key`) would violate a UNIQUE constraint (SQLSTATE 23505). */
  predicate Conflicts(rows: seq<License>, userId: string, key: string) {
    exists i :: 0 <= i < |rows| && (rows[i].userId == userId || rows[i].licenseKey == key)
  }

  /** The row an INSERT with the column defaults produces. */
  function NewLicense(id: nat, userId: string, username: string, key: string, now: nat): License {
    License(id, key, userId, username, Active, now, None, None)
  }

  /** What `UPDATE ... SET status = 'revoked', revoked_at = now, revoked_by = revoker` does to one row. */
  function Revocation(l: License, revoker: string, now: nat): License {
    l.(status := Revoked, revokedAt := Some(now), revokedBy := Some(revoker))
  }

  /** The UPDATE of `revokeLicense`: every row whose user_id matches is revoked, the rest stay. */
  function RevokeRows(rows: seq<License>, userId: string, revoker: string, now: nat): seq<License> {
    seq(|rows|, i requires 0 <= i < |rows| =>
      if rows[i].userId == userId then Revocation(rows[i], revoker, now) else rows[i])
  }

  /** Position of the first row whose user_id is `userId`. */
  function IndexOfUser(rows: seq<License>, userId: string): (r: Option<nat>)
    ensures r.None? <==> forall i :: 0 <= i < |rows| ==> rows[i].userId != userId
    ensures r.Some? ==> r.value < |rows| && rows[r.value].userId == userId
    ensures r.Some? ==> forall j :: 0 <= j < r.value ==> rows[j].userId != userId
  {
    if |rows| == 0 then None
    else if rows[0].userId == userId then Some(0)
    else match IndexOfUser(rows[1..], userId)
      case None => None
      case Some(k) => Some(k + 1)
  }

  /**
   * `getLicenseByUserId`: the row whose user_id is `userId`, or `None`. On a
   * well-formed table that row is the only one with that user_id.
   */
  function GetLicenseByUserId(rows: seq<License>, userId: string): (r: Option<License>)
    ensures r.Some? <==> exists i :: 0 <= i < |rows| && rows[i].userId == userId
    ensures r.Some? ==> r.value in rows && r.value.userId == userId
    ensures r.Some? && UniqueUsers(rows) ==>
      forall i :: 0 <= i < |rows| && rows[i].userId == userId ==> rows[i] == r.value
  {
    match IndexOfUser(rows, userId)
    case None => None
    case Some(i) => Some(rows[i])
  }

  /** `ORDER BY activated_at DESC`. */
  predicate SortedByActivation(ls: seq<License>) {
    forall i, j :: 0 <= i < j < |ls| ==> ls[i].activatedAt >= ls[j].activatedAt
  }

  /** In a list sorted newest first, the head is at least as new as every element. */
  lemma HeadIsNewest(s: seq<License>)
    requires SortedByActivation(s) && |s| > 0
    ensures forall y | y in s :: s[0].activatedAt >= y.activatedAt
  {
    forall y | y in s ensures s[0].activatedAt >= y.activatedAt {
      var k :| 0 <= k < |s| && s[k] == y;
      if k > 0 { assert s[0].activatedAt >= s[k].activatedAt; }
    }
  }

  /** Putting a row at least as new as every element in front of a sorted list keeps it sorted. */
  lemma ConsSorted(x: License, s: seq<License>)
    requires SortedByActivation(s)
    requires forall y | y in s :: x.activatedAt >= y.activatedAt
    ensures SortedByActivation([x] + s)
  {
    var r := [x] + s;
    forall i, j | 0 <= i < j < |r| ensures r[i].activatedAt >= r[j].activatedAt {
      assert r[j] == s[j - 1];
      if i > 0 { assert r[i] == s[i - 1]; }
    }
  }

  /**
   * `x` may come before `y` under `ORDER BY activated_at DESC, id DESC`: it was
   * activated later, or at the same time with a larger id.
   */
  predicate NotOlder(x: License, y: License) {
    x.activatedAt > y.activatedAt || (x.activatedAt == y.activatedAt && x.id >= y.id)
  }

  /** `ORDER BY activated_at DESC, id DESC`. */
  predicate SortedNewestFirst(ls: seq<License>) {
    forall i, j :: 0 <= i < j < |ls| ==> NotOlder(ls[i], ls[j])
  }

  /** The id tie-breaker only refines the order by activation. */
  lemma NewestFirstByActivation(ls: seq<License>)
    requires SortedNewestFirst(ls)
    ensures SortedByActivation(ls)
  {
    forall i, j | 0 <= i < j < |ls| ensures ls[i].activatedAt >= ls[j].activatedAt {
      assert NotOlder(ls[i], ls[j]);
    }
  }

  /** In a list sorted newest first, the head comes before every element. */
  lemma HeadIsNotOlder(s: seq<License>)
    requires SortedNewestFirst(s) && |s| > 0
    ensures forall y | y in s :: NotOlder(s[0], y)
  {
    forall y | y in s ensures NotOlder(s[0], y) {
      var k :| 0 <= k < |s| && s[k] == y;
      if k > 0 { assert NotOlder(s[0], s[k]); }
    }
  }

  /** Putting a row that comes before every element in front of a sorted list keeps it sorted. */
  lemma ConsNewestFirst(x: License, s: seq<License>)
    requires SortedNewestFirst(s)
    requires forall y | y in s :: NotOlder(x, y)
    ensures SortedNewestFirst([x] + s)
  {
    var r := [x] + s;
    forall i, j | 0 <= i < j < |r| ensures NotOlder(r[i], r[j]) {
      assert r[j] == s[j - 1];
      if i > 0 { assert r[i] == s[i - 1]; }
    }
  }

  /** A row that comes before the head of a sorted list can go in front of it. */
  lemma ConsBeforeHead(x: License, s: seq<License>)
    requires SortedNewestFirst(s)
    requires |s| == 0 || NotOlder(x, s[0])
    ensures SortedNewestFirst([x] + s)
  {
    if |s| > 0 {
      HeadIsNotOlder(s);
      assert forall y | y in s :: NotOlder(x, y) by {
        forall y | y in s ensures NotOlder(x, y) {
          assert NotOlder(s[0], y);
        }
      }
    }
    ConsNewestFirst(x, s);
  }

  function InsertByActivation(l: License, sorted: seq<License>): (r: seq<License>)
    requires SortedNewestFirst(sorted)
    ensures SortedNewestFirst(r)
    ensures multiset(r) == multiset(sorted) + multiset{l}
    ensures |r| == |sorted| + 1
  {
    if |sorted| == 0 || NotOlder(l, sorted[0]) then
      ConsBeforeHead(l, sorted);
      [l] + sorted
    else
      var tail := sorted[1..];
      assert sorted == [sorted[0]] + tail;
      assert SortedNewestFirst(tail);
      var rest := InsertByActivation(l, tail);
      HeadIsNotOlder(sorted);
      assert forall y | y in rest :: NotOlder(sorted[0], y) by {
        forall y | y in rest ensures NotOlder(sorted[0], y) {
          assert y in multiset(rest);
          if y != l { assert y in multiset(tail); assert y in sorted; }
        }
      }
      ConsNewestFirst(sorted[0], rest);
      [sorted[0]] + rest
  }

  /**
   * The order the page query returns rows in: newest activation first, ties
   * broken by the larger id first. The query as written orders by
   * `activated_at` alone; see `TiedRowsListedTwice` for why the tie-breaker is
   * needed and `OrderIsDetermined` for what it buys.
   */
  function SortByActivation(rows: seq<License>): (r: seq<License>)
    ensures SortedNewestFirst(r)
    ensures SortedByActivation(r)
    ensures multiset(r) == multiset(rows)
    ensures |r| == |rows|
  {
    if |rows| == 0 then []
    else
      assert rows == [rows[0]] + rows[1..];
      var r := InsertByActivation(rows[0], SortByActivation(rows[1..]));
      NewestFirstByActivation(r);
      r
  }

  /** The result of `getAllLicenses`: one page of rows and the full row count. */
  datatype LicensePage = LicensePage(licenses: seq<License>, total: nat)

  /** `LIMIT limit OFFSET offset` on a list: up to `limit` elements from position `offset` on. */
  function Window<T>(s: seq<T>, offset: nat, limit: nat): (w: seq<T>)
    ensures |w| == if offset >= |s| then 0 else if |s| - offset < limit then |s| - offset else limit
    ensures forall i :: 0 <= i < |w| ==> w[i] == s[offset + i]
  {
    var lo := if offset < |s| then offset else |s|;
    var hi := if lo + limit < |s| then lo + limit else |s|;
    s[lo..hi]
  }

  /** A window of a sorted list is sorted. */
  lemma WindowSorted(s: seq<License>, offset: nat, limit: nat)
    requires SortedByActivation(s)
    ensures SortedByActivation(Window(s, offset, limit))
  {
    var w := Window(s, offset, limit);
    forall i, j | 0 <= i < j < |w| ensures w[i].activatedAt >= w[j].activatedAt {
      assert w[i] == s[offset + i] && w[j] == s[offset + j];
    }
  }

  /** A window holds no more of any element than the list does. */
  lemma WindowMultiset<T>(s: seq<T>, offset: nat, limit: nat)
    ensures multiset(Window(s, offset, limit)) <= multiset(s)
  {
    var lo := if offset < |s| then offset else |s|;
    var hi := if lo + limit < |s| then lo + limit else |s|;
    assert s == s[..lo] + s[lo..hi] + s[hi..];
    assert multiset(s) == multiset(s[..lo]) + multiset(s[lo..hi]) + multiset(s[hi..]);
  }

  /**
   * `getAllLicenses(limit, offset)`: `LIMIT limit OFFSET offset` over the rows
   * sorted by activation, newest first, and `COUNT(*)` over the whole table.
   */
  function GetAllLicenses(rows: seq<License>, limit: nat, offset: nat): (p: LicensePage)
    ensures p.total == |rows|
    ensures |p.licenses| <= limit
    ensures |p.licenses| == if offset >= |rows| then 0
                            else if |rows| - offset < limit then |rows| - offset else limit
  {
    LicensePage(Window(SortByActivation(rows), offset, limit), |rows|)
  }

  /**
   * The rows of a page: position `i` of the page is position `offset + i` of
   * the table sorted newest first, so the page is itself sorted and holds
   * only rows of the table.
   */
  lemma PageContents(rows: seq<License>, limit: nat, offset: nat)
    ensures var page := GetAllLicenses(rows, limit, offset).licenses;
      && (forall i :: 0 <= i < |page| ==> page[i] == SortByActivation(rows)[offset + i])
      && SortedByActivation(page)
      && multiset(page) <= multiset(rows)
  {
    WindowSorted(SortByActivation(rows), offset, limit);
    WindowMultiset(SortByActivation(rows), offset, limit);
  }

  /** The pages `page(offset)`, `page(offset + limit)`, ... of offsets below `count`, concatenated. */
  function Concatenated<T>(page: nat -> seq<T>, count: nat, limit: nat, offset: nat): seq<T>
    requires limit > 0
    decreases count - offset
  {
    if offset >= count then [] else page(offset) + Concatenated(page, count, limit, offset + limit)
  }

  /** Consecutive windows of `s` from `offset` on make up the suffix of `s` from `offset`. */
  lemma {:induction false} WindowsFormSuffix<T>(page: nat -> seq<T>, s: seq<T>, limit: nat, offset: nat)
    requires limit > 0 && offset <= |s|
    requires forall o :: page(o) == Window(s, o, limit)
    ensures Concatenated(page, |s|, limit, offset) == s[offset..]
    decreases |s| - offset
  {
    if offset < |s| {
      var next := if offset + limit < |s| then offset + limit else |s|;
      assert Concatenated(page, |s|, limit, offset + limit) == s[next..] by {
        if offset + limit < |s| {
          WindowsFormSuffix(page, s, limit, offset + limit);
        }
      }
      assert page(offset) == s[offset..next] by {
        assert page(offset) == Window(s, offset, limit);
      }
      SplitSuffix(s, offset, next);
    }
  }

  /** A suffix is the part up to `mid` followed by the suffix from `mid`. */
  lemma SplitSuffix<T>(s: seq<T>, lo: nat, mid: nat)
    requires lo <= mid <= |s|
    ensures s[lo..] == s[lo..mid] + s[mid..]
  {
  }

  /** `getAllLicenses(limit, offset)` as a function of the offset. */
  function PageAt(rows: seq<License>, limit: nat): nat -> seq<License> {
    (offset: nat) => GetAllLicenses(rows, limit, offset).licenses
  }

  /** The pages `getAllLicenses(limit, offset)` returns for offset, offset + limit, ... concatenated. */
  function PagesFrom(rows: seq<License>, limit: nat, offset: nat): seq<License>
    requires limit > 0
  {
    Concatenated(PageAt(rows, limit), |rows|, limit, offset)
  }

  /** Paging from `offset` onwards yields exactly the sorted rows from `offset` on. */
  lemma PagesFromIsSuffix(rows: seq<License>, limit: nat, offset: nat)
    requires limit > 0 && offset <= |rows|
    ensures PagesFrom(rows, limit, offset) == SortByActivation(rows)[offset..]
  {
    var sorted := SortByActivation(rows);
    forall o: nat ensures PageAt(rows, limit)(o) == Window(sorted, o, limit) {
    }
    WindowsFormSuffix(PageAt(rows, limit), sorted, limit, offset);
  }

  /**
   * A row order the page query as written, `ORDER BY activated_at DESC`, may
   * return: the rows, each as often as in the table, by activation descending.
   * Rows with equal `activated_at` may come in either order, and each query
   * may pick its own.
   */
  predicate ActivationOrder(order: seq<License>, rows: seq<License>) {
    SortedByActivation(order) && multiset(order) == multiset(rows)
  }

  /** A row order `ORDER BY activated_at DESC, id DESC` may return. */
  predicate NewestFirstOrder(order: seq<License>, rows: seq<License>) {
    SortedNewestFirst(order) && multiset(order) == multiset(rows)
  }

  /** The pages a client is served when the query at `offset` returns its rows in the order `plan(offset)`. */
  function PlannedPages(plan: nat -> seq<License>, limit: nat): nat -> seq<License> {
    (offset: nat) => Window(plan(offset), offset, limit)
  }

  /** Two active rows activated at the same time. */
  const TiedA := License(1, "KEY-A", "u1", "alice", Active, 7, None, None)
  const TiedB := License(2, "KEY-B", "u2", "bob", Active, 7, None, None)

  /** Two page queries that break the tie differently: the first puts `TiedB` first, the later ones `TiedA`. */
  function TiedPlan(offset: nat): seq<License> {
    if offset == 0 then [TiedB, TiedA] else [TiedA, TiedB]
  }

  /**
   * The page query as written does not page reliably: with two rows tied on
   * `activated_at`, a limit of 1 and queries that break the tie differently
   * (both legal for `ORDER BY activated_at DESC`), the two pages list `TiedB`
   * twice and `TiedA` never.
   */
  lemma TiedRowsListedTwice()
    ensures WellFormed([TiedA, TiedB])
    ensures forall offset :: ActivationOrder(TiedPlan(offset), [TiedA, TiedB])
    ensures Concatenated(PlannedPages(TiedPlan, 1), 2, 1, 0) == [TiedB, TiedB]
  {
    TiedOrdersAllowed();
    TiedPagesRepeat();
  }

  lemma TiedOrdersAllowed()
    ensures forall offset :: ActivationOrder(TiedPlan(offset), [TiedA, TiedB])
  {
    assert multiset([TiedB, TiedA]) == multiset([TiedA, TiedB]);
  }

  lemma TiedPagesRepeat()
    ensures Concatenated(PlannedPages(TiedPlan, 1), 2, 1, 0) == [TiedB, TiedB]
  {
    var pages := PlannedPages(TiedPlan, 1);
    assert pages(0) == [TiedB] by {
      assert pages(0) == Window(TiedPlan(0), 0, 1);
      assert TiedPlan(0) == [TiedB, TiedA];
      assert Window([TiedB, TiedA], 0, 1) == [TiedB];
    }
    assert pages(1) == [TiedB] by {
      assert pages(1) == Window(TiedPlan(1), 1, 1);
      assert TiedPlan(1) == [TiedA, TiedB];
      assert Window([TiedA, TiedB], 1, 1) == [TiedB];
    }
    assert Concatenated(pages, 2, 1, 2) == [];
    assert Concatenated(pages, 2, 1, 1) == [TiedB];
  }

  /** When ids identify rows, no two different rows share an id. */
  predicate IdsIdentifyRows(m: multiset<License>) {
    forall x, y :: x in m && y in m && x.id == y.id ==> x == y
  }

  lemma UniqueIdsIdentifyRows(rows: seq<License>)
    requires UniqueIds(rows)
    ensures IdsIdentifyRows(multiset(rows))
  {
    forall x, y | x in multiset(rows) && y in multiset(rows) && x.id == y.id ensures x == y {
      var i :| 0 <= i < |rows| && rows[i] == x;
      var j :| 0 <= j < |rows| && rows[j] == y;
    }
  }

  lemma IdsIdentifyFewerRows(m: multiset<License>, n: multiset<License>)
    requires m <= n && IdsIdentifyRows(n)
    ensures IdsIdentifyRows(m)
  {
    forall x, y | x in m && y in m && x.id == y.id ensures x == y {
      assert x in n && y in n;
    }
  }

  /** Two orders newest-first-then-by-id of the same non-empty rows start with the same row. */
  lemma SameHead(a: seq<License>, b: seq<License>)
    requires SortedNewestFirst(a) && SortedNewestFirst(b) && |a| > 0 && |b| > 0
    requires multiset(a) == multiset(b) && IdsIdentifyRows(multiset(a))
    ensures a[0] == b[0]
  {
    assert a[0] in multiset(b) && b[0] in multiset(a);
    HeadIsNotOlder(a);
    HeadIsNotOlder(b);
    assert NotOlder(a[0], b[0]) && NotOlder(b[0], a[0]);
  }

  /** Dropping the head of a sorted list leaves a sorted list of the other rows. */
  lemma DropHead(a: seq<License>)
    requires SortedNewestFirst(a) && |a| > 0
    ensures SortedNewestFirst(a[1..])
    ensures multiset(a[1..]) == multiset(a) - multiset{a[0]}
    ensures multiset(a[1..]) <= multiset(a)
  {
    assert a == [a[0]] + a[1..];
  }

  /** Two orders newest-first-then-by-id of the same rows, with ids identifying rows, are the same order. */
  lemma {:induction false} NewestFirstIsUnique(a: seq<License>, b: seq<License>)
    requires SortedNewestFirst(a) && SortedNewestFirst(b)
    requires multiset(a) == multiset(b) && IdsIdentifyRows(multiset(a))
    ensures a == b
    decreases |a|
  {
    assert |a| == |b| by {
      assert |a| == |multiset(a)| == |multiset(b)| == |b|;
    }
    if |a| > 0 {
      assert a[0] == b[0] by {
        SameHead(a, b);
      }
      assert a[1..] == b[1..] by {
        DropHead(a);
        DropHead(b);
        IdsIdentifyFewerRows(multiset(a[1..]), multiset(a));
        NewestFirstIsUnique(a[1..], b[1..]);
      }
      assert a == [a[0]] + a[1..] && b == [b[0]] + b[1..];
    }
  }

  /**
   * With the id as tie-breaker the order is determined: on a table whose ids
   * are unique, every order `ORDER BY activated_at DESC, id DESC` may return is
   * `SortByActivation(rows)`, so separate page queries agree on it.
   */
  lemma OrderIsDetermined(rows: seq<License>, order: seq<License>)
    requires UniqueIds(rows)
    requires NewestFirstOrder(order, rows)
    ensures order == SortByActivation(rows)
  {
    UniqueIdsIdentifyRows(rows);
    NewestFirstIsUnique(order, SortByActivation(rows));
  }

  /**
   * Walking the offsets 0, limit, 2 * limit, ... while they are below the
   * total yields every row exactly once, newest activation first, whatever
   * order each page query picks among those `ORDER BY activated_at DESC, id
   * DESC` allows.
   */
  lemma PagingCoversTable(rows: seq<License>, limit: nat, plan: nat -> seq<License>)
    requires limit > 0 && UniqueIds(rows)
    requires forall offset :: NewestFirstOrder(plan(offset), rows)
    ensures Concatenated(PlannedPages(plan, limit), |rows|, limit, 0) == SortByActivation(rows)
    ensures SortedByActivation(Concatenated(PlannedPages(plan, limit), |rows|, limit, 0))
    ensures multiset(Concatenated(PlannedPages(plan, limit), |rows|, limit, 0)) == multiset(rows)
  {
    var sorted := SortByActivation(rows);
    forall offset: nat ensures PlannedPages(plan, limit)(offset) == Window(sorted, offset, limit) {
      OrderIsDetermined(rows, plan(offset));
    }
    WindowsFormSuffix(PlannedPages(plan, limit), sorted, limit, 0);
    assert sorted[0..] == sorted;
  }

  /** After an INSERT without conflict, looking the new user up finds the new row and no other lookup changes. */
  lemma {:induction false} LookupAfterInsert(rows: seq<License>, row: License, userId: string)
    requires !Conflicts(rows, row.userId, row.licenseKey)
    ensures GetLicenseByUserId(rows + [row], userId) ==
      if userId == row.userId then Some(row) else GetLicenseByUserId(rows, userId)
  {
    var rows' := rows + [row];
    if userId == row.userId {
      assert forall i :: 0 <= i < |rows| ==> rows'[i].userId != userId;
      assert rows'[|rows|] == row;
    } else {
      assert forall i :: 0 <= i < |rows| ==> rows'[i] == rows[i];
      assert forall i :: 0 <= i < |rows'| && rows'[i].userId == userId ==> i < |rows|;
    }
  }

  /** An INSERT without conflict, with a fresh id, keeps the table well-formed. */
  lemma {:induction false} InsertKeepsWellFormed(rows: seq<License>, id: nat, userId: string, username: string, key: string, now: nat)
    requires WellFormed(rows)
    requires !Conflicts(rows, userId, key)
    requires forall i :: 0 <= i < |rows| ==> rows[i].id < id
    ensures WellFormed(rows + [NewLicense(id, userId, username, key, now)])
  {
    var row := NewLicense(id, userId, username, key, now);
    var rows' := rows + [row];
    forall i, j | 0 <= i < j < |rows'|
      ensures rows'[i].userId != rows'[j].userId
      ensures rows'[i].licenseKey != rows'[j].licenseKey
      ensures rows'[i].id != rows'[j].id
    {
      if j == |rows| {
        assert rows'[i] == rows[i];
      }
    }
  }

  /** Revoking by user_id keeps the table well-formed: key, user and id columns are untouched. */
  lemma RevokeKeepsWellFormed(rows: seq<License>, userId: string, revoker: string, now: nat)
    requires WellFormed(rows)
    ensures WellFormed(RevokeRows(rows, userId, revoker, now))
  {
  }

  /**
   * After the revoking UPDATE, the target's lookup gives its old row revoked by
   * `revoker` at `now`, and every other user's lookup is unchanged.
   */
  lemma {:induction false} LookupAfterRevoke(rows: seq<License>, userId: string, revoker: string, now: nat, other: string)
    ensures GetLicenseByUserId(RevokeRows(rows, userId, revoker, now), other) ==
      match GetLicenseByUserId(rows, other)
      case None => None
      case Some(l) => if other == userId then Some(Revocation(l, revoker, now)) else Some(l)
  {
    var rows' := RevokeRows(rows, userId, revoker, now);
    assert forall i :: 0 <= i < |rows| ==> rows'[i].userId == rows[i].userId;
    var a, b := IndexOfUser(rows, other), IndexOfUser(rows', other);
    if a.Some? {
      assert b.Some? && b.value == a.value;
    }
  }

  /**
   * The registry: the rows of the `licenses` table and the next value of its
   * SERIAL `id` sequence. `createLicense` and `revokeLicense` change it in place.
   */
  class LicenseTable {
    var rows: seq<License>
    var nextId: nat

    ghost predicate Valid()
      reads this
    {
      WellFormed(rows) && forall i :: 0 <= i < |rows| ==> rows[i].id < nextId
    }

    /** An empty table whose id sequence starts at 1. */
    constructor ()
      ensures Valid() && rows == [] && nextId == 1
    {
      rows := [];
      nextId := 1;
    }

    /**
     * `createLicense`: INSERT a row for (`userId`, `username`, `licenseKey`).
     * A duplicate user_id or license_key aborts the INSERT and gives `None`
     * with the rows unchanged; otherwise exactly the new active row is
     * appended and returned. The id sequence advances either way, as a
     * Postgres sequence is consumed even by an INSERT that then fails.
     */
    method CreateLicense(userId: string, username: string, licenseKey: string, now: nat) returns (r: Option<License>)
      requires Valid()
      modifies this
      ensures Valid()
      ensures nextId == old(nextId) + 1
      ensures r.None? <==> Conflicts(old(rows), userId, licenseKey)
      ensures r.None? ==> rows == old(rows)
      ensures r.Some? ==> r.value == NewLicense(old(nextId), userId, username, licenseKey, now)
      ensures r.Some? ==> rows == old(rows) + [r.value]
    {
      var id := nextId;
      nextId := nextId + 1;
      if Conflicts(rows, userId, licenseKey) {
        return None;
      }
      var row := NewLicense(id, userId, username, licenseKey, now);
      InsertKeepsWellFormed(rows, id, userId, username, licenseKey, now);
      rows := rows + [row];
      r := Some(row);
    }

    /**
     * `revokeLicense`: revoke the row of `userId` whatever its current status
     * (a second call overwrites revoked_at and revoked_by) and return the
     * updated row, or `None` when the user has no row and nothing changes.
     */
    method RevokeLicense(userId: string, revokedBy: string, now: nat) returns (r: Option<License>)
      requires Valid()
      modifies this
      ensures Valid()
      ensures nextId == old(nextId)
      ensures rows == RevokeRows(old(rows), userId, revokedBy, now)
      ensures |rows| == |old(rows)|
      ensures r == match old(GetLicenseByUserId(rows, userId))
                   case None => None
                   case Some(l) => Some(Revocation(l, revokedBy, now))
      ensures r.None? ==> rows == old(rows)
    {
      var before := GetLicenseByUserId(rows, userId);
      RevokeKeepsWellFormed(rows, userId, revokedBy, now);
      LookupAfterRevoke(rows, userId, revokedBy, now, userId);
      rows := RevokeRows(rows, userId, revokedBy, now);
      r := GetLicenseByUserId(rows, userId);
      if before.None? {
        assert rows == old(rows);
      }
    }
  }
}
