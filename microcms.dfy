/**
 * The CMS query composer: `calculatePagination`, `buildMicroCMSQuery`
 * and the pagination that `getArticles` attaches to a page it fetched.
 * The fetch itself is not modelled; its response is a parameter.
 */
module Cms {
  import opened Wrappers
  import opened Strings
  import opened Articles
  import opened Sorting

  const DefaultLimit: int := 10
  const DefaultFields: string :=
    "id,title,slug,excerpt,publishedAt,readTime,viewCount,likeCount,category,tags,featuredImage,author,isPremium,isNew"

  datatype Pagination = Pagination(current: int, total: int, pages: int, hasNext: bool, hasPrev: bool, limit: int)

  /**
   * `calculatePagination`: the 1-based page holding `offset`, and the
   * number of pages needed for `totalCount` items. The single caller never
   * passes a zero limit.
   */
  function CalculatePagination(offset: int, limit: int, totalCount: int): (p: Pagination)
    requires limit != 0
    ensures p.total == totalCount && p.limit == limit
    ensures limit > 0 ==> (p.current - 1) * limit <= offset < p.current * limit
    ensures limit > 0 ==> (p.pages - 1) * limit < totalCount <= p.pages * limit
    ensures p.hasNext <==> p.current < p.pages
    ensures p.hasPrev <==> p.current > 1
  {
    var current := FloorDiv(offset, limit) + 1;
    var pages := CeilDiv(totalCount, limit);
    Pagination(current, totalCount, pages, current < pages, current > 1, limit)
  }

  /**
   * With a positive limit, a non-negative offset is on page 1 or later,
   * and there are no pages exactly when there are no items.
   */
  lemma PaginationBounds(offset: int, limit: int, totalCount: int)
    requires limit > 0 && offset >= 0 && totalCount >= 0
    ensures CalculatePagination(offset, limit, totalCount).current >= 1
    ensures CalculatePagination(offset, limit, totalCount).pages >= 0
    ensures CalculatePagination(offset, limit, totalCount).pages == 0 <==> totalCount == 0
  {
  }

  lemma ProductNonNegative(x: int, y: int)
    requires x >= 0 && y >= 0
    ensures x * y >= 0
  {
  }

  lemma FactorAtLeastOne(d: int, m: int)
    requires m > 0
    ensures d >= 1 ==> d * m >= m
  {
    if d >= 1 {
      ProductNonNegative(d - 1, m);
      assert d * m == (d - 1) * m + m;
    }
  }

  lemma FactorAtMostMinusOne(d: int, m: int)
    requires m > 0
    ensures d <= -1 ==> (d + 1) * m <= 0
  {
    if d <= -1 {
      ProductNonNegative(-d - 1, m);
      assert (d + 1) * m == -((-d - 1) * m);
    }
  }

  /** The only factor of a positive `m` with `d * m <= 0 < (d + 1) * m` is zero. */
  lemma ZeroFactor(d: int, m: int)
    requires m > 0 && d * m <= 0 < (d + 1) * m
    ensures d == 0
  {
    FactorAtLeastOne(d, m);
    FactorAtMostMinusOne(d, m);
  }

  /** Dividing a multiple of `l` by `l` gives the factor back, for either sign of `l`. */
  lemma FloorDivMultiple(k: int, l: int)
    requires l != 0
    ensures FloorDiv(k * l, l) == k
  {
    var q := FloorDiv(k * l, l);
    var d := q - k;
    if l > 0 {
      assert d * l == q * l - k * l;
      assert (d + 1) * l == q * l - k * l + l;
      ZeroFactor(d, l);
    } else {
      var m := -l;
      assert d * m == k * l - q * l;
      assert (d + 1) * m == k * l - q * l - l;
      ZeroFactor(d, m);
    }
  }

  /** Page `page` starts at offset `(page - 1) * limit`, for a limit of either sign. */
  lemma PageOffsetRoundTrip(page: int, limit: int, totalCount: int)
    requires limit != 0
    ensures CalculatePagination((page - 1) * limit, limit, totalCount).current == page
  {
    FloorDivMultiple(page - 1, limit);
  }

  datatype DateRange = Today | Week | Month | Year | All

  datatype SearchParams = SearchParams(
    query: Option<string>,
    category: Option<string>,
    tags: Option<seq<string>>,
    author: Option<string>,
    dateRange: Option<DateRange>,
    sortBy: Option<SortBy>,
    sortOrder: Option<SortOrder>,
    page: Option<int>,
    limit: Option<int>)

  datatype MicroCMSQuery = MicroCMSQuery(
    limit: int,
    offset: int,
    fields: string,
    filters: string,
    q: Option<string>,
    orders: string)

  /** A string option that JavaScript reads as true: present and non-empty. */
  predicate Truthy(s: Option<string>) {
    s.Some? && s.value != []
  }

  /** `params.limit || DEFAULT_LIMIT`: never 0. */
  function EffectiveLimit(params: SearchParams): (l: int)
    ensures l != 0
  {
    NumberOr(params.limit, DefaultLimit)
  }

  /** `params.page || 1`. */
  function EffectivePage(params: SearchParams): int {
    NumberOr(params.page, 1)
  }

  /** The field name the CMS sorts by. */
  function SortFieldName(f: SortBy): string {
    match f
    case PublishedAt => "publishedAt"
    case ViewCount => "viewCount"
    case LikeCount => "likeCount"
    case Title => "title"
  }

  const PublishedClause: string := "isPublished[equals]true"
  const CategoryPrefix: string := "category[contains]"
  const TagPrefix: string := "tags[contains]"
  const DatePrefix: string := "publishedAt[greater_than]"

  /** `tags.map(tag => `tags[contains]${tag}`)`. */
  function TagConditions(tags: seq<string>): (r: seq<string>)
    ensures |r| == |tags|
    ensures forall i :: 0 <= i < |tags| ==> r[i] == TagPrefix + tags[i]
  {
    seq(|tags|, i requires 0 <= i < |tags| => TagPrefix + tags[i])
  }

  /** The clause that matches any of the tags: `(tags[contains]a[or]tags[contains]b)`. */
  function TagClause(tags: seq<string>): string {
    "(" + Join("[or]", TagConditions(tags)) + ")"
  }

  predicate HasTags(params: SearchParams) {
    params.tags.Some? && |params.tags.value| > 0
  }

  predicate HasDateRange(params: SearchParams) {
    params.dateRange.Some? && params.dateRange.value != All
  }

  /**
   * The filter clauses in the order they are pushed: publication always,
   * then category, tags and date range when given. `rangeStart` is the
   * ISO text of the start instant the date range selects.
   */
  function FilterClauses(params: SearchParams, rangeStart: string): (cs: seq<string>)
    ensures 1 <= |cs| <= 4 && cs[0] == PublishedClause
    ensures |cs| == 1 <==> !Truthy(params.category) && !HasTags(params) && !HasDateRange(params)
  {
    [PublishedClause]
    + (if Truthy(params.category) then [CategoryPrefix + params.category.value] else [])
    + (if HasTags(params) then [TagClause(params.tags.value)] else [])
    + (if HasDateRange(params) then [DatePrefix + rangeStart] else [])
  }

  /** `orders`: the sort field, minus-prefixed for `desc`, only when both parts are given. */
  function OrdersOf(params: SearchParams): (r: string)
    ensures params.sortBy.None? || params.sortOrder.None? ==> r == "-publishedAt"
    ensures params.sortBy.Some? && params.sortOrder == Some(Asc) ==> r == SortFieldName(params.sortBy.value)
    ensures params.sortBy.Some? && params.sortOrder == Some(Desc) ==> r == "-" + SortFieldName(params.sortBy.value)
  {
    if params.sortBy.Some? && params.sortOrder.Some? then
      (if params.sortOrder.value == Desc then "-" else "") + SortFieldName(params.sortBy.value)
    else "-publishedAt"
  }

  /**
   * `buildMicroCMSQuery`: the query object is created with the limit and
   * offset, the clauses are pushed one by one and joined with `[and]`,
   * then `q` and `orders` are assigned.
   */
  method BuildMicroCMSQuery(params: SearchParams, rangeStart: string) returns (query: MicroCMSQuery)
    ensures query.limit == EffectiveLimit(params)
    ensures query.offset == (EffectivePage(params) - 1) * EffectiveLimit(params)
    ensures query.fields == DefaultFields
    ensures query.filters == Join("[and]", FilterClauses(params, rangeStart))
    ensures query.q.Some? <==> Truthy(params.query)
    ensures query.q.Some? ==> query.q == params.query
    ensures query.orders == OrdersOf(params)
  {
    query := MicroCMSQuery(
      NumberOr(params.limit, DefaultLimit),
      (NumberOr(params.page, 1) - 1) * NumberOr(params.limit, DefaultLimit),
      DefaultFields, "[]", None, "");

    var filters: seq<string> := [];
    filters := filters + [PublishedClause];
    if Truthy(params.category) {
      filters := filters + [CategoryPrefix + params.category.value];
    }
    if params.tags.Some? && |params.tags.value| > 0 {
      var tagFilters := Join("[or]", TagConditions(params.tags.value));
      filters := filters + ["(" + tagFilters + ")"];
    }
    if params.dateRange.Some? && params.dateRange.value != All {
      filters := filters + [DatePrefix + rangeStart];
    }
    assert filters == FilterClauses(params, rangeStart);
    query := query.(filters := Join("[and]", filters));

    if Truthy(params.query) {
      query := query.(q := params.query);
    }

    if params.sortBy.Some? && params.sortOrder.Some? {
      var order := if params.sortOrder.value == Desc then "-" else "";
      query := query.(orders := order + SortFieldName(params.sortBy.value));
    } else {
      query := query.(orders := "-publishedAt");
    }
  }

  /**
   * The clause list: publication first; a category clause exactly when a
   * category is given; the tag clause, exactly as the `[or]` group of the
   * tags, exactly when tags are given; a date clause exactly when a range
   * other than `all` is given; nothing else (the author is not sent).
   */
  lemma FilterClausesShape(params: SearchParams, rangeStart: string)
    ensures var cs := FilterClauses(params, rangeStart);
      && cs[0] == PublishedClause
      && |cs| == 1 + (if Truthy(params.category) then 1 else 0) + (if HasTags(params) then 1 else 0)
                   + (if HasDateRange(params) then 1 else 0)
      && ((exists c :: c in cs && CategoryPrefix <= c) <==> Truthy(params.category))
      && (forall c :: c in cs && c[0] == '(' ==> HasTags(params) && c == TagClause(params.tags.value))
      && (HasTags(params) ==> TagClause(params.tags.value) in cs)
      && ((exists c :: c in cs && DatePrefix <= c) <==> HasDateRange(params))
      && FilterClauses(params.(author := None), rangeStart) == cs
  {
    var cs := FilterClauses(params, rangeStart);
    assert CategoryPrefix[0] == 'c' && DatePrefix[0] == 'p';
    forall c | c in cs
      ensures CategoryPrefix <= c ==> Truthy(params.category)
      ensures DatePrefix <= c ==> HasDateRange(params)
      ensures c[0] == '(' ==> HasTags(params) && c == TagClause(params.tags.value)
    {
      if c == PublishedClause {
        assert c[0] == 'i';
      } else if Truthy(params.category) && c == CategoryPrefix + params.category.value {
        assert c[0] == 'c';
      } else if HasTags(params) && c == TagClause(params.tags.value) {
        assert c[0] == '(';
      } else {
        assert c == DatePrefix + rangeStart;
        assert c[0] == 'p';
      }
    }
    if Truthy(params.category) {
      assert CategoryPrefix <= CategoryPrefix + params.category.value;
      assert cs[1] == CategoryPrefix + params.category.value && cs[1] in cs;
    }
    if HasDateRange(params) {
      assert DatePrefix <= DatePrefix + rangeStart;
      assert cs[|cs| - 1] == DatePrefix + rangeStart && cs[|cs| - 1] in cs;
    }
  }

  /** The filter string always begins with the publication clause. */
  lemma FiltersStartPublished(params: SearchParams, rangeStart: string)
    ensures PublishedClause <= Join("[and]", FilterClauses(params, rangeStart))
  {
    JoinStartsWithFirst("[and]", FilterClauses(params, rangeStart));
  }

  /** What the CMS answered for the query: one page of items and the count of all matches. */
  datatype ListResponse = ListResponse(contents: seq<Article>, totalCount: int)

  datatype ArticlesResponse = ArticlesResponse(articles: seq<Article>, pagination: Pagination, totalCount: int)

  /**
   * `getArticles(params)` once the page `response` has been fetched for
   * the built query: the page and the count are passed through, and the
   * pagination is computed from the query's own offset and limit, so its
   * current page is the requested page.
   */
  method GetArticles(params: SearchParams, rangeStart: string, response: ListResponse) returns (r: ArticlesResponse)
    ensures r.articles == response.contents
    ensures r.totalCount == response.totalCount && r.pagination.total == response.totalCount
    ensures r.pagination.limit == EffectiveLimit(params)
    ensures r.pagination.current == EffectivePage(params)
    ensures r.pagination == CalculatePagination((EffectivePage(params) - 1) * EffectiveLimit(params), EffectiveLimit(params), response.totalCount)
  {
    var query := BuildMicroCMSQuery(params, rangeStart);
    // `query.offset || 0` and `query.limit || DEFAULT_LIMIT`; the limit is never 0.
    var offset := NumberOr(Some(query.offset), 0);
    var limit := NumberOr(Some(query.limit), DefaultLimit);
    var pagination := CalculatePagination(offset, limit, response.totalCount);
    PageOffsetRoundTrip(EffectivePage(params), EffectiveLimit(params), response.totalCount);
    r := ArticlesResponse(response.contents, pagination, response.totalCount);
  }
}
