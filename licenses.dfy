/**
 * The `/licenses` command: one page of ten licenses, newest activation
 * first, one embed field per license.
 */
module ListCommand {
  import opened Options
  import opened Js
  import opened Registry
  import opened Platform

  const PageSize: nat := 10

  /** The lines of a license's field, before the embed renders them. */
  datatype FieldLine =
    | KeyLine(licenseKey: string)
    | StatusLine(active: bool)
    | ActivatedLine(activatedAt: nat)
    | RevokedLine(revokedAt: nat, revokedBy: Option<string>)

  datatype Field = Field(username: string, lines: seq<FieldLine>)

  datatype Reply =
    | NoLicenses
    | Listing(shown: nat, total: nat, page: int, totalPages: int, fields: seq<Field>)

  /**
   * The field of one license: its key, its status, its activation and, only
   * when `revoked_at` is set, the revocation line (`filter(Boolean)` drops the
   * empty string that stands in for it otherwise).
   */
  function FieldOf(l: License): (f: Field)
    ensures f.username == l.username
    ensures |f.lines| >= 3
    ensures f.lines[..3] == [KeyLine(l.licenseKey), StatusLine(l.status == Active), ActivatedLine(l.activatedAt)]
    ensures (exists k :: 0 <= k < |f.lines| && f.lines[k].RevokedLine?) <==> l.revokedAt.Some?
    ensures l.revokedAt.Some? ==> f.lines == f.lines[..3] + [RevokedLine(l.revokedAt.value, l.revokedBy)]
    ensures l.revokedAt.None? ==> |f.lines| == 3
  {
    var revoked := if l.revokedAt.Some? then [RevokedLine(l.revokedAt.value, l.revokedBy)] else [];
    var lines := [KeyLine(l.licenseKey), StatusLine(l.status == Active), ActivatedLine(l.activatedAt)] + revoked;
    assert l.revokedAt.Some? ==> lines[3].RevokedLine?;
    Field(l.username, lines)
  }

  /** `interaction.options.getInteger('page') || 1`; the option's minimum is 1. */
  function PageOf(page: Option<int>): (p: int)
    requires page.Some? ==> page.value >= 1
    ensures p >= 1
    ensures page.Some? ==> p == page.value
    ensures page.None? ==> p == 1
  {
    OrDefault(page, 1)
  }

  /** `(page - 1) * limit` with the fixed limit of 10. */
  function OffsetOf(page: Option<int>): (offset: nat)
    requires page.Some? ==> page.value >= 1
  {
    (PageOf(page) - 1) * PageSize
  }

  /**
   * One run of `/licenses` with the optional `page` option. The page is
   * `getAllLicenses(10, (page - 1) * 10)`; an empty page gives "No licenses
   * found", otherwise there is one field per listed license, in the listed
   * order, and `totalPages` is `ceil(total / 10)`.
   */
  method Execute(table: LicenseTable, page: Option<int>) returns (reply: Reply, calls: seq<Call>)
    requires page.Some? ==> page.value >= 1
    ensures var p, offset := PageOf(page), OffsetOf(page);
      var listed := GetAllLicenses(table.rows, PageSize, offset);
      && calls == [ListLicenses(PageSize, offset)]
      && (reply == NoLicenses <==> offset >= |table.rows|)
      && (reply.Listing? ==>
            && reply.shown == |listed.licenses| <= PageSize
            && reply.total == |table.rows|
            && reply.page == p
            && reply.totalPages == CeilDiv(|table.rows|, PageSize)
            && |reply.fields| == |listed.licenses|
            && forall k :: 0 <= k < |reply.fields| ==> reply.fields[k] == FieldOf(listed.licenses[k]))
  {
    var p := PageOf(page);
    var offset := OffsetOf(page);
    calls := [ListLicenses(PageSize, offset)];
    var listed := GetAllLicenses(table.rows, PageSize, offset);
    var licenses, total := listed.licenses, listed.total;
    assert total == |table.rows| && |licenses| <= PageSize;
    assert |licenses| == 0 <==> offset >= |table.rows|;
    var totalPages := CeilDiv(total, PageSize);

    if |licenses| == 0 {
      reply := NoLicenses;
      return;
    }

    // `licenses.forEach(...)` adding one field per license to the embed.
    var fields: seq<Field> := [];
    var i := 0;
    while i < |licenses|
      invariant 0 <= i <= |licenses|
      invariant |fields| == i
      invariant forall k :: 0 <= k < i ==> fields[k] == FieldOf(licenses[k])
    {
      fields := fields + [FieldOf(licenses[i])];
      i := i + 1;
    }
    reply := Listing(|licenses|, total, p, totalPages, fields);
  }

  /**
   * Pages of the command never overlap and together list every license once:
   * pages 1, 2, ... up to `ceil(total / 10)` concatenated are the whole table,
   * newest activation first, whichever order each page query picks among
   * those the tie-broken ORDER BY allows.
   */
  lemma CommandPagesCoverTable(rows: seq<License>, plan: nat -> seq<License>)
    requires UniqueIds(rows)
    requires forall offset :: NewestFirstOrder(plan(offset), rows)
    ensures Concatenated(PlannedPages(plan, PageSize), |rows|, PageSize, 0) == SortByActivation(rows)
    ensures multiset(Concatenated(PlannedPages(plan, PageSize), |rows|, PageSize, 0)) == multiset(rows)
    ensures PagesFrom(rows, PageSize, 0) == SortByActivation(rows)
  {
    PagingCoversTable(rows, PageSize, plan);
    PagesFromIsSuffix(rows, PageSize, 0);
    assert SortByActivation(rows)[0..] == SortByActivation(rows);
  }
}
