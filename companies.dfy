/** The company listing handler: every shipment is projected once as an
    importer row and once as an exporter row (`UNION ALL`), the rows are grouped
    by (name, country, role) with a shipment count and a weight sum, the groups
    are filtered by the criteria, ordered by shipment count (descending) and cut
    to one page. A separate count query reports how many groups pass the
    filter. */
module Companies {
  import opened Wrappers
  import opened Text
  import opened Shipments
  import opened Grouping
  import opened Sorting
  import opened Paging
  import opened Filters

  /** A listing group's identity. */
  datatype Party = Party(name: string, country: string, role: Role)

  function PartyOf(c: Company): Party {
    Party(c.name, c.country, c.role)
  }

  /** `SELECT <role>_name AS name, <role>_country AS country, '<role>' AS role,
      weight_metric_tonnes FROM shipments`. */
  function RoleRows(records: seq<Shipment>, r: Role): (rows: seq<(Party, nat)>)
    ensures |rows| == |records|
    ensures forall i :: 0 <= i < |records| ==>
              rows[i] == (Party(PartyName(records[i], r), PartyCountry(records[i], r), r), records[i].weightTonnes)
  {
    seq(|records|, i requires 0 <= i < |records| =>
      (Party(PartyName(records[i], r), PartyCountry(records[i], r), r), records[i].weightTonnes))
  }

  /** The importer rows `UNION ALL` the exporter rows. */
  function ProjectedRows(records: seq<Shipment>): seq<(Party, nat)> {
    RoleRows(records, Importer) + RoleRows(records, Exporter)
  }

  function CompanyOf(b: Bucket<Party>): Company {
    Company(b.key.name, b.key.country, b.key.role, b.count, b.sum)
  }

  function CompaniesOf(bs: seq<Bucket<Party>>): (cs: seq<Company>)
    ensures |cs| == |bs| && forall i :: 0 <= i < |bs| ==> cs[i] == CompanyOf(bs[i])
  {
    seq(|bs|, i requires 0 <= i < |bs| => CompanyOf(bs[i]))
  }

  /** `SELECT name, country, role, COUNT(*) AS total_shipments,
      SUM(weight_metric_tonnes) AS total_weight FROM (…) GROUP BY name, country, role`. */
  function CompanyGroups(records: seq<Shipment>): seq<Company> {
    CompaniesOf(GroupBy(ProjectedRows(records)))
  }

  predicate CompanyMatches(conds: seq<Condition>, c: Company) {
    MatchesAll(conds, c.name, c.country, c.role)
  }

  /** The `WHERE` clause over the grouped rows, keeping their order. */
  function FilterCompanies(conds: seq<Condition>, cs: seq<Company>): (r: seq<Company>)
    ensures |r| <= |cs|
    ensures forall c :: c in r <==> c in cs && CompanyMatches(conds, c)
  {
    if cs == [] then []
    else
      var rest := FilterCompanies(conds, cs[1..]);
      assert forall c :: c in cs <==> c == cs[0] || c in cs[1..];
      if CompanyMatches(conds, cs[0]) then [cs[0]] + rest else rest
  }

  /** `WHERE` keeps the order of the rows it keeps. */
  lemma {:induction false} FilterKeepsOrder(conds: seq<Condition>, cs: seq<Company>, i: nat, j: nat)
    requires i < j < |cs| && CompanyMatches(conds, cs[i]) && CompanyMatches(conds, cs[j])
    ensures Precedes(FilterCompanies(conds, cs), cs[i], cs[j])
    decreases |cs|
  {
    var tail := cs[1..];
    var rest := FilterCompanies(conds, tail);
    var r := FilterCompanies(conds, cs);
    assert tail[j - 1] == cs[j];
    if i == 0 {
      assert cs[j] in rest;
      var k :| 0 <= k < |rest| && rest[k] == cs[j];
      assert r == [cs[0]] + rest;
      assert r[0] == cs[0] && r[k + 1] == cs[j];
    } else {
      assert tail[i - 1] == cs[i];
      FilterKeepsOrder(conds, tail, i - 1, j - 1);
      var p, q :| 0 <= p < q < |rest| && rest[p] == cs[i] && rest[q] == cs[j];
      if CompanyMatches(conds, cs[0]) {
        assert r == [cs[0]] + rest;
        assert r[p + 1] == cs[i] && r[q + 1] == cs[j];
      }
    }
  }

  /** The `WHERE` clause over the count query's (name, country, role) rows. */
  function FilterParties(conds: seq<Condition>, ps: seq<Party>): seq<Party> {
    if ps == [] then []
    else
      var rest := FilterParties(conds, ps[1..]);
      if MatchesAll(conds, ps[0].name, ps[0].country, ps[0].role) then [ps[0]] + rest else rest
  }

  /** The count query: the distinct (name, country) pairs of each role
      (`GROUP BY` without aggregates), `UNION ALL`, filtered, counted. */
  function CountQuery(records: seq<Shipment>, conds: seq<Condition>): nat {
    |FilterParties(conds, Keys(GroupBy(RoleRows(records, Importer))) + Keys(GroupBy(RoleRows(records, Exporter))))|
  }

  /** `ORDER BY total_shipments DESC`. */
  predicate MoreShipments(a: Company, b: Company) {
    a.totalShipments >= b.totalShipments
  }

  /** The filtered groups in listing order; ties keep their grouping order. */
  function Ranked(records: seq<Shipment>, conds: seq<Condition>): seq<Company> {
    Sort(FilterCompanies(conds, CompanyGroups(records)), MoreShipments)
  }

  /** The handler's JSON body. */
  datatype Listing = Listing(data: seq<Company>, total: nat, page: int, limit: int, totalPages: nat)

  /** The two queries for an already normalised page and limit. */
  function ListPage(records: seq<Shipment>, conds: seq<Condition>, page: int, limit: int): Listing
    requires page >= 1 && limit >= 1
  {
    var total := CountQuery(records, conds);
    Listing(Slice(Ranked(records, conds), Offset(page, limit), limit), total, page, limit, TotalPages(total, limit))
  }

  /** The raw query parameters; `None` is an absent parameter. */
  datatype ListRequest = ListRequest(
    page: Option<string>, limit: Option<string>,
    search: Option<string>, role: Option<string>, country: Option<string>)

  function RequestConditions(req: ListRequest): seq<Condition> {
    Criteria(req.search, req.role, req.country)
  }

  /** What a listing response promises for the given criteria: the rows are
      the page's window (`LIMIT limit OFFSET (page - 1) * limit`) of the
      ranked passing groups; so at most `limit` rows in non-increasing
      shipment-count order, each one a whole group that passes the filter;
      `total` counts every group that passes, before paging; `totalPages` is
      the ceiling of `total / limit`; and the page is empty exactly when its
      number exceeds `totalPages`. */
  predicate IsPageOfGroups(records: seq<Shipment>, conds: seq<Condition>, r: Listing) {
    && r.page >= 1 && r.limit >= 1
    && r.data == Slice(Ranked(records, conds), Offset(r.page, r.limit), r.limit)
    && |r.data| <= r.limit
    && (forall i, j :: 0 <= i < j < |r.data| ==> r.data[i].totalShipments >= r.data[j].totalShipments)
    && (forall c :: c in r.data ==> c in CompanyGroups(records) && CompanyMatches(conds, c))
    && r.total == |FilterCompanies(conds, CompanyGroups(records))|
    && IsCeiling(r.totalPages, r.total, r.limit)
    && (r.data == [] <==> r.page > r.totalPages)
  }

  /** `GET /api/companies`: the page and limit are normalised, the criteria
      become conditions, and the response is a page of the filtered groups. */
  function ListCompanies(records: seq<Shipment>, req: ListRequest): (r: Listing)
    ensures r.page >= 1 && 1 <= r.limit <= MaxLimit
    ensures r.page == EffectivePage(req.page) && r.limit == EffectiveLimit(req.limit)
    ensures IsPageOfGroups(records, RequestConditions(req), r)
  {
    var conds := RequestConditions(req);
    var page, limit := EffectivePage(req.page), EffectiveLimit(req.limit);
    ListPageSpec(records, conds, page, limit);
    ListPage(records, conds, page, limit)
  }

  /** The rows of a page: at most `limit`, in non-increasing shipment count,
      each a whole group that passes the filter. */
  lemma ListPageRows(records: seq<Shipment>, conds: seq<Condition>, page: int, limit: int)
    requires page >= 1 && limit >= 1
    ensures |ListPage(records, conds, page, limit).data| <= limit
    ensures forall i, j :: 0 <= i < j < |ListPage(records, conds, page, limit).data| ==>
              ListPage(records, conds, page, limit).data[i].totalShipments >= ListPage(records, conds, page, limit).data[j].totalShipments
    ensures forall c :: c in ListPage(records, conds, page, limit).data ==>
              c in CompanyGroups(records) && CompanyMatches(conds, c)
  {
    var filtered := FilterCompanies(conds, CompanyGroups(records));
    SortSorted(filtered, MoreShipments);
    SortSameElements(filtered, MoreShipments);
    SliceSorted(Ranked(records, conds), Offset(page, limit), limit);
  }

  /** The counts of a page: `total` counts every passing group, and the page
      is empty exactly when its number exceeds `totalPages`. */
  lemma ListPageCounts(records: seq<Shipment>, conds: seq<Condition>, page: int, limit: int)
    requires page >= 1 && limit >= 1
    ensures ListPage(records, conds, page, limit).total == |FilterCompanies(conds, CompanyGroups(records))|
    ensures ListPage(records, conds, page, limit).data == [] <==> page > ListPage(records, conds, page, limit).totalPages
  {
    CountQueryIsGroupCount(records, conds);
    PageInRange(Ranked(records, conds), page, limit);
  }

  /** `totalPages` is the ceiling of `total / limit`. */
  lemma ListPageTotals(records: seq<Shipment>, conds: seq<Condition>, page: int, limit: int)
    requires page >= 1 && limit >= 1
    ensures IsCeiling(ListPage(records, conds, page, limit).totalPages, ListPage(records, conds, page, limit).total, limit)
  {
    var r := ListPage(records, conds, page, limit);
    assert r.totalPages == TotalPages(r.total, limit) && r.limit == limit;
  }

  /** Every page of the listing, for any normalised page and limit, keeps the
      response's promises. */
  lemma ListPageSpec(records: seq<Shipment>, conds: seq<Condition>, page: int, limit: int)
    requires page >= 1 && limit >= 1
    ensures ListPage(records, conds, page, limit).page == page
    ensures ListPage(records, conds, page, limit).limit == limit
    ensures IsPageOfGroups(records, conds, ListPage(records, conds, page, limit))
  {
    ListPageRows(records, conds, page, limit);
    ListPageCounts(records, conds, page, limit);
    ListPageTotals(records, conds, page, limit);
  }

  /** The ranked list is the passing groups, each once, in non-increasing
      shipment count; it is `total` long. */
  lemma RankedSpec(records: seq<Shipment>, conds: seq<Condition>)
    ensures SortedBy(Ranked(records, conds), MoreShipments)
    ensures multiset(Ranked(records, conds)) == multiset(FilterCompanies(conds, CompanyGroups(records)))
    ensures |Ranked(records, conds)| == CountQuery(records, conds)
  {
    SortSorted(FilterCompanies(conds, CompanyGroups(records)), MoreShipments);
    CountQueryIsGroupCount(records, conds);
  }

  /** Among passing groups with the same shipment count, the listing keeps
      the order in which the groups were formed. */
  lemma RankedKeepsTies(records: seq<Shipment>, conds: seq<Condition>, i: nat, j: nat)
    requires i < j < |FilterCompanies(conds, CompanyGroups(records))|
    requires FilterCompanies(conds, CompanyGroups(records))[i].totalShipments
             == FilterCompanies(conds, CompanyGroups(records))[j].totalShipments
    ensures Precedes(Ranked(records, conds),
                     FilterCompanies(conds, CompanyGroups(records))[i],
                     FilterCompanies(conds, CompanyGroups(records))[j])
  {
    SortStable(FilterCompanies(conds, CompanyGroups(records)), MoreShipments, i, j);
  }

  /** A page holds `limit` rows, or what is left after its offset, or none
      once the offset reaches `total`. */
  lemma ListPageSize(records: seq<Shipment>, conds: seq<Condition>, page: int, limit: int)
    requires page >= 1 && limit >= 1
    ensures var r := ListPage(records, conds, page, limit);
            var offset := Offset(page, limit);
            |r.data| == if offset >= r.total then 0
                        else if offset + limit <= r.total then limit
                        else r.total - offset
  {
    RankedSpec(records, conds);
  }

  /** Every row of an earlier page has at least as many shipments as every
      row of a later page. */
  lemma EarlierPagesRankHigher(records: seq<Shipment>, conds: seq<Condition>, limit: int,
                               p: int, q: int, i: nat, j: nat)
    requires limit >= 1 && 1 <= p < q
    requires i < |ListPage(records, conds, p, limit).data|
    requires j < |ListPage(records, conds, q, limit).data|
    ensures ListPage(records, conds, p, limit).data[i].totalShipments
            >= ListPage(records, conds, q, limit).data[j].totalShipments
  {
    RankedSpec(records, conds);
    SortedPagesOrdered(Ranked(records, conds), limit, p, q, i, j);
  }

  lemma SortedPagesOrdered(xs: seq<Company>, limit: int, p: int, q: int, i: nat, j: nat)
    requires SortedBy(xs, MoreShipments) && limit >= 1 && 1 <= p < q
    requires i < |Slice(xs, Offset(p, limit), limit)| && j < |Slice(xs, Offset(q, limit), limit)|
    ensures Slice(xs, Offset(p, limit), limit)[i].totalShipments
            >= Slice(xs, Offset(q, limit), limit)[j].totalShipments
  {
    var op, oq := Offset(p, limit), Offset(q, limit);
    PagesApart(p, q, limit);
    assert Slice(xs, op, limit)[i] == xs[op + i];
    assert Slice(xs, oq, limit)[j] == xs[oq + j];
    assert MoreShipments(xs[op + i], xs[oq + j]);
  }

  lemma SliceSorted(xs: seq<Company>, offset: nat, limit: nat)
    requires SortedBy(xs, MoreShipments)
    ensures forall i, j :: 0 <= i < j < |Slice(xs, offset, limit)| ==>
              Slice(xs, offset, limit)[i].totalShipments >= Slice(xs, offset, limit)[j].totalShipments
    ensures forall c :: c in Slice(xs, offset, limit) ==> c in xs
  {
    var s := Slice(xs, offset, limit);
    forall i, j | 0 <= i < j < |s| ensures s[i].totalShipments >= s[j].totalShipments {
      assert s[i] == xs[offset + i] && s[j] == xs[offset + j];
      assert MoreShipments(xs[offset + i], xs[offset + j]);
    }
    forall c | c in s ensures c in xs {
      var k :| 0 <= k < |s| && s[k] == c;
      assert xs[offset + k] == c;
    }
  }

  // ---------------------------------------------------------------------------
  // Counting by role.

  /** Number of shipments whose party in role `r` is (`name`, `country`). */
  function RoleCount(records: seq<Shipment>, r: Role, name: string, country: string): nat {
    if records == [] then 0
    else
      var last := records[|records| - 1];
      RoleCount(records[..|records| - 1], r, name, country)
        + (if PartyName(last, r) == name && PartyCountry(last, r) == country then 1 else 0)
  }

  /** Total weight of the shipments whose party in role `r` is (`name`, `country`). */
  function RoleWeight(records: seq<Shipment>, r: Role, name: string, country: string): nat {
    if records == [] then 0
    else
      var last := records[|records| - 1];
      RoleWeight(records[..|records| - 1], r, name, country)
        + (if PartyName(last, r) == name && PartyCountry(last, r) == country then last.weightTonnes else 0)
  }

  lemma {:induction false} CountOfAppend<K>(a: seq<(K, nat)>, b: seq<(K, nat)>, k: K)
    ensures CountOf(a + b, k) == CountOf(a, k) + CountOf(b, k)
    ensures SumOf(a + b, k) == SumOf(a, k) + SumOf(b, k)
  {
    if b == [] {
      assert a + b == a;
    } else {
      assert (a + b)[..|a + b| - 1] == a + b[..|b| - 1];
      CountOfAppend(a, b[..|b| - 1], k);
    }
  }

  /** The rows of one role count and weigh exactly that role's shipments of a
      party, and contribute nothing to a party of the other role. */
  lemma {:induction false} RoleRowsCount(records: seq<Shipment>, r: Role, p: Party)
    ensures CountOf(RoleRows(records, r), p) == if p.role == r then RoleCount(records, r, p.name, p.country) else 0
    ensures SumOf(RoleRows(records, r), p) == if p.role == r then RoleWeight(records, r, p.name, p.country) else 0
  {
    if records != [] {
      var init := records[..|records| - 1];
      assert RoleRows(records, r)[..|records| - 1] == RoleRows(init, r);
      RoleRowsCount(init, r, p);
    }
  }

  /** Each group's shipment count is the number of shipments that name its
      party in its role, and its weight the sum of their weights. */
  lemma ProjectedCount(records: seq<Shipment>, p: Party)
    ensures CountOf(ProjectedRows(records), p) == RoleCount(records, p.role, p.name, p.country)
    ensures SumOf(ProjectedRows(records), p) == RoleWeight(records, p.role, p.name, p.country)
  {
    CountOfAppend(RoleRows(records, Importer), RoleRows(records, Exporter), p);
    RoleRowsCount(records, Importer, p);
    RoleRowsCount(records, Exporter, p);
  }

  /** Every listing group counts and weighs exactly the shipments that name its
      (name, country) in its role, and so has at least one shipment. */
  lemma GroupTotals(records: seq<Shipment>)
    ensures forall c :: c in CompanyGroups(records) ==>
              c.totalShipments == RoleCount(records, c.role, c.name, c.country) >= 1
              && c.totalWeight == RoleWeight(records, c.role, c.name, c.country)
  {
    var g := GroupBy(ProjectedRows(records));
    forall c | c in CompanyGroups(records)
      ensures c.totalShipments == RoleCount(records, c.role, c.name, c.country) >= 1
      ensures c.totalWeight == RoleWeight(records, c.role, c.name, c.country)
    {
      var i :| 0 <= i < |g| && CompanyGroups(records)[i] == c;
      GroupAt(ProjectedRows(records), i);
      ProjectedCount(records, g[i].key);
    }
  }

  /** Every shipment's party in either role heads a group: the group it falls
      into. */
  lemma GroupOf(records: seq<Shipment>, i: nat, r: Role) returns (c: Company)
    requires i < |records|
    ensures c in CompanyGroups(records)
    ensures PartyOf(c) == Party(PartyName(records[i], r), PartyCountry(records[i], r), r)
  {
    var rows := ProjectedRows(records);
    var g := GroupBy(rows);
    GroupBySpec(rows);
    var p := Party(PartyName(records[i], r), PartyCountry(records[i], r), r);
    var k := if r == Importer then i else |records| + i;
    assert rows[k].0 == p;
    assert Occurs(rows, p);
    var j :| 0 <= j < |g| && g[j].key == p;
    c := CompanyGroups(records)[j];
  }

  /** No two groups share a (name, country, role). */
  lemma GroupPartiesDistinct(records: seq<Shipment>)
    ensures DistinctBy(CompanyGroups(records), PartyOf)
  {
    var g := GroupBy(ProjectedRows(records));
    GroupBySpec(ProjectedRows(records));
    assert forall j :: 0 <= j < |g| ==> PartyOf(CompanyGroups(records)[j]) == g[j].key;
  }

  /** Every group's party occurs in some shipment in that role. */
  lemma GroupPartySound(records: seq<Shipment>, j: nat)
    requires j < |CompanyGroups(records)|
    ensures var c := CompanyGroups(records)[j];
            exists i :: 0 <= i < |records| && PartyName(records[i], c.role) == c.name && PartyCountry(records[i], c.role) == c.country
  {
    var rows := ProjectedRows(records);
    var g := GroupBy(rows);
    GroupAt(rows, j);
    var k :| 0 <= k < |rows| && rows[k].0 == g[j].key;
    if k < |records| {
      assert rows[k] == RoleRows(records, Importer)[k];
    } else {
      assert rows[k] == RoleRows(records, Exporter)[k - |records|];
    }
  }

  function SumShipments(cs: seq<Company>): nat {
    if cs == [] then 0 else cs[0].totalShipments + SumShipments(cs[1..])
  }

  lemma {:induction false} SumShipmentsOf(bs: seq<Bucket<Party>>)
    ensures SumShipments(CompaniesOf(bs)) == TotalCount(bs)
  {
    if bs != [] {
      assert CompaniesOf(bs)[1..] == CompaniesOf(bs[1..]);
      SumShipmentsOf(bs[1..]);
    }
  }

  /** Over all unfiltered groups the shipment counts add up to twice the number
      of shipments: each shipment is counted once as an import and once as an
      export. */
  lemma ShipmentCountsSumToTwiceRecords(records: seq<Shipment>)
    ensures SumShipments(CompanyGroups(records)) == 2 * |records|
  {
    GroupBySpec(ProjectedRows(records));
    SumShipmentsOf(GroupBy(ProjectedRows(records)));
  }

  /** A name recorded both as an importer and as an exporter yields two
      separate listing rows, one per role. */
  lemma BothRolesListedSeparately(records: seq<Shipment>, i: nat, j: nat)
    requires i < |records| && j < |records|
    requires records[i].importerName == records[j].exporterName
    ensures exists a, b :: a in CompanyGroups(records) && b in CompanyGroups(records) && a != b
              && a.name == b.name == records[i].importerName && a.role == Importer && b.role == Exporter
  {
    var a := GroupOf(records, i, Importer);
    var b := GroupOf(records, j, Exporter);
    assert a.role != b.role;
  }

  // ---------------------------------------------------------------------------
  // The count query agrees with the listing.

  lemma {:induction false} FilterCount(conds: seq<Condition>, bs: seq<Bucket<Party>>)
    ensures |FilterParties(conds, Keys(bs))| == |FilterCompanies(conds, CompaniesOf(bs))|
  {
    if bs != [] {
      assert Keys(bs)[1..] == Keys(bs[1..]);
      assert CompaniesOf(bs)[1..] == CompaniesOf(bs[1..]);
      FilterCount(conds, bs[1..]);
    }
  }

  /** No importer row shares its key with an exporter row, so grouping all
      rows is grouping each role and putting the groups side by side. */
  lemma ProjectedGroups(records: seq<Shipment>)
    ensures GroupBy(ProjectedRows(records)) == GroupBy(RoleRows(records, Importer)) + GroupBy(RoleRows(records, Exporter))
  {
    var imp, exp := RoleRows(records, Importer), RoleRows(records, Exporter);
    forall i, j | 0 <= i < |imp| && 0 <= j < |exp| ensures imp[i].0 != exp[j].0 {
      assert imp[i].0.role == Importer && exp[j].0.role == Exporter;
    }
    GroupByAppendDisjoint(imp, exp);
  }

  /** `total` is the number of groups that pass the filter, counted before
      `LIMIT`/`OFFSET`: the count query over distinct (name, country) pairs per
      role agrees with the grouped listing query. */
  lemma CountQueryIsGroupCount(records: seq<Shipment>, conds: seq<Condition>)
    ensures CountQuery(records, conds) == |FilterCompanies(conds, CompanyGroups(records))|
  {
    ProjectedGroups(records);
    KeysAppend(GroupBy(RoleRows(records, Importer)), GroupBy(RoleRows(records, Exporter)));
    FilterCount(conds, GroupBy(ProjectedRows(records)));
  }

  // ---------------------------------------------------------------------------
  // Paging through the listing.

  /** The filter selects whole groups: a row passes exactly when its group
      passes, and its counts are the group's, whatever the criteria. */
  lemma FilterKeepsGroups(records: seq<Shipment>, conds: seq<Condition>)
    ensures forall c :: c in FilterCompanies(conds, CompanyGroups(records)) <==>
              c in CompanyGroups(records) && CompanyMatches(conds, c)
    ensures FilterCompanies([], CompanyGroups(records)) == CompanyGroups(records)
  {
    FilterNothing(CompanyGroups(records));
  }

  lemma {:induction false} FilterNothing(cs: seq<Company>)
    ensures FilterCompanies([], cs) == cs
  {
    if cs != [] {
      FilterNothing(cs[1..]);
      assert cs == [cs[0]] + cs[1..];
    }
  }

  /** Pages 1, 2, … put one after the other. */
  function ConcatPages(records: seq<Shipment>, conds: seq<Condition>, limit: int, n: nat): seq<Company>
    requires limit >= 1
  {
    if n == 0 then [] else ConcatPages(records, conds, limit, n - 1) + ListPage(records, conds, n, limit).data
  }

  lemma {:induction false} ConcatPagesIsPages(records: seq<Shipment>, conds: seq<Condition>, limit: int, n: nat)
    requires limit >= 1
    ensures ConcatPages(records, conds, limit, n) == PagesUpTo(Ranked(records, conds), limit, n)
  {
    if n > 0 { ConcatPagesIsPages(records, conds, limit, n - 1); }
  }

  /** Concatenating pages 1 to `totalPages` lists every group that passes the
      filter exactly once: `total` rows, no duplicates, no gaps. */
  lemma PagesListEveryGroupOnce(records: seq<Shipment>, conds: seq<Condition>, limit: int)
    requires 1 <= limit
    ensures var all := ConcatPages(records, conds, limit, ListPage(records, conds, 1, limit).totalPages);
            && |all| == ListPage(records, conds, 1, limit).total
            && multiset(all) == multiset(FilterCompanies(conds, CompanyGroups(records)))
            && DistinctBy(all, PartyOf)
            && SortedBy(all, MoreShipments)
  {
    var filtered := FilterCompanies(conds, CompanyGroups(records));
    var ranked := Ranked(records, conds);
    CountQueryIsGroupCount(records, conds);
    ConcatPagesIsPages(records, conds, limit, TotalPages(|ranked|, limit));
    PagesCover(ranked, limit);
    GroupPartiesDistinct(records);
    FilterDistinct(conds, CompanyGroups(records));
    SortDistinct(filtered, MoreShipments, PartyOf);
    SortSorted(filtered, MoreShipments);
  }

  lemma {:induction false} FilterDistinct(conds: seq<Condition>, cs: seq<Company>)
    requires DistinctBy(cs, PartyOf)
    ensures DistinctBy(FilterCompanies(conds, cs), PartyOf)
  {
    if cs != [] {
      var tail := cs[1..];
      assert DistinctBy(tail, PartyOf) by {
        forall i, j | 0 <= i < j < |tail| ensures PartyOf(tail[i]) != PartyOf(tail[j]) {
          assert tail[i] == cs[i + 1] && tail[j] == cs[j + 1];
        }
      }
      FilterDistinct(conds, tail);
      var rest := FilterCompanies(conds, tail);
      forall k | 0 <= k < |rest| ensures PartyOf(rest[k]) != PartyOf(cs[0]) {
        assert rest[k] in tail;
        var m :| 0 <= m < |tail| && tail[m] == rest[k];
        assert tail[m] == cs[m + 1];
      }
    }
  }
}
