/** The query arithmetic of `GET /api/events`: the sort order picked from `sort`, the
    page and page size read from the query string, the number of events to skip and the
    page count reported back. Filtering and the database query itself are not modelled. */
module EventListing {
  import opened Common
  import opened JsString

  datatype SortField = ByDate | ByPrice
  datatype SortOption = SortOption(field: SortField, ascending: bool)

  /** Date ascending unless `sort` names one of the three other orders. */
  function SortFor(sort: Option<string>): (r: SortOption)
    ensures r.field == ByPrice <==> sort == Some("price-asc") || sort == Some("price-desc")
    ensures !r.ascending <==> sort == Some("price-desc") || sort == Some("date-desc")
  {
    var byDefault := SortOption(ByDate, true);
    var r1 := if sort == Some("price-asc") then SortOption(ByPrice, true) else byDefault;
    var r2 := if sort == Some("price-desc") then SortOption(ByPrice, false) else r1;
    if sort == Some("date-desc") then SortOption(ByDate, false) else r2
  }

  /** `parseInt(raw) || fallback`: the parsed number unless it is `NaN` or 0. */
  function ParamOr(raw: Option<string>, fallback: int): (n: int)
    requires fallback != 0
    ensures n != 0
    ensures raw.None? ==> n == fallback
    ensures raw.Some? && ParseInt(raw.value, Inferred) in {None, Some(0)} ==> n == fallback
    ensures raw.Some? && ParseInt(raw.value, Inferred).Some? && ParseInt(raw.value, Inferred).value != 0
            ==> n == ParseInt(raw.value, Inferred).value
  {
    match raw
    case None => fallback
    case Some(s) =>
      match ParseInt(s, Inferred)
      case None => fallback
      case Some(v) => if v == 0 then fallback else v
  }

  function PageNumber(raw: Option<string>): int { ParamOr(raw, 1) }
  function PageSize(raw: Option<string>): int { ParamOr(raw, 10) }

  /** `(page - 1) * limit`. */
  function Skip(page: int, limit: int): int { (page - 1) * limit }

  /** `Math.ceil(total / limit)`. */
  function Pages(total: nat, limit: int): (pages: int)
    requires limit != 0
    ensures limit > 0 ==> (pages - 1) * limit < total <= pages * limit
    ensures limit > 0 ==> pages >= 0 && (pages == 0 <==> total == 0)
  {
    if limit > 0 then
      DivisionFacts(total, limit);
      if total % limit == 0 then total / limit else total / limit + 1
    else -(total / -limit)
  }

  lemma DivisionFacts(total: nat, limit: int)
    requires limit > 0
    ensures total == (total / limit) * limit + total % limit
    ensures 0 <= total % limit < limit && total / limit >= 0
  {
  }

  /** Every one of the `total` matching events lies on exactly the page its position
      gives, and that page is among the pages reported. */
  lemma ItemOnPage(i: nat, total: nat, limit: int)
    requires i < total && limit > 0
    ensures var page := i / limit + 1;
      1 <= page <= Pages(total, limit) && Skip(page, limit) <= i < Skip(page, limit) + limit
  {
    var page := i / limit + 1;
    DivisionFacts(i, limit);
    assert Skip(page, limit) == (i / limit) * limit;
    var pages := Pages(total, limit);
    assert (i / limit) * limit < pages * limit;
    FactorLess(i / limit, pages, limit);
  }

  lemma FactorLess(a: int, b: int, c: int)
    requires a * c < b * c && c > 0
    ensures a < b
  {
    assert (b - a) * c == b * c - a * c;
  }

  /** The pagination fields of the response. */
  datatype Pagination = Pagination(total: nat, page: int, pages: int)

  /** The window the query asks for and the pagination it reports. */
  datatype ListPlan = ListPlan(skip: int, limit: int, pagination: Pagination)

  function Plan(pageRaw: Option<string>, limitRaw: Option<string>, total: nat): (p: ListPlan)
    ensures p.limit != 0 && p.pagination.page != 0
    ensures p.skip == (p.pagination.page - 1) * p.limit
    ensures p.pagination.total == total
  {
    var page := PageNumber(pageRaw);
    var limit := PageSize(limitRaw);
    ListPlan(Skip(page, limit), limit, Pagination(total, page, Pages(total, limit)))
  }

  /** Without `page` and `limit` the first ten events are asked for and the page count is
      the number of blocks of ten. */
  lemma DefaultPlan(total: nat)
    ensures var p := Plan(None, None, total);
      p.skip == 0 && p.limit == 10 && p.pagination.page == 1
      && (p.pagination.pages - 1) * 10 < total <= p.pagination.pages * 10
  {
  }
}
