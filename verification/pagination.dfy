/** Offset pagination shared by the post list and the comment list views:
    query-parameter validation, the offset of a page, and the metadata block
    of the response. Both views carry identical copies of this code.
 */
module Pagination {
  import opened Outcomes
  import opened PyInt
  import opened Listing
  import opened Text

  const MinPageSize: nat := 1
  const DefaultPageSize: nat := 10
  const MaxPageSize: nat := 50
  const DefaultPage: nat := 1

  type Pos = n: nat | n >= 1 witness 1

  /** A validated page number and page size. */
  datatype Paging = Paging(page: Pos, limit: Pos)

  /** The `pagination` object of a list response. */
  datatype PageMeta = PageMeta(
    totalPages: nat,
    currentPage: nat,
    totalCount: nat,
    hasNext: bool,
    hasPrevious: bool,
    limit: nat)

  /** `int(value) if value else default`: an absent or empty parameter takes
      the default; `None` is the `ValueError` of a non-numeric one. */
  function IntOrDefault(param: Option<string>, default: int): Option<int>
  {
    match param
    case None => Some(default)
    case Some(text) => if text == "" then Some(default) else ParseInt(text)
  }

  /** `validate_pagination_params`: both parameters are converted before any
      bound is checked, so a non-numeric limit is reported even when the page
      is out of range. */
  function ValidatePaginationParams(page: Option<string>, limit: Option<string>): (r: Result<Paging>)
    ensures r.Ok? ==> MinPageSize <= r.value.page && MinPageSize <= r.value.limit <= MaxPageSize
    ensures r.Ok? && (page == None || page == Some("")) ==> r.value.page == DefaultPage
    ensures r.Ok? && (limit == None || limit == Some("")) ==> r.value.limit == DefaultPageSize
    ensures IntOrDefault(page, DefaultPage).None? ==> r == Err(Invalid(NotNumeric))
    ensures IntOrDefault(page, DefaultPage).Some? && IntOrDefault(limit, DefaultPageSize).None? ==>
      r == Err(Invalid(NotNumeric))
    ensures r.Err? ==> r.error.Invalid?
  {
    match IntOrDefault(page, DefaultPage)
    case None => Err(Invalid(NotNumeric))
    case Some(p) =>
      match IntOrDefault(limit, DefaultPageSize)
      case None => Err(Invalid(NotNumeric))
      case Some(l) =>
        if p < MinPageSize then Err(Invalid(PageTooSmall))
        else if l < MinPageSize then Err(Invalid(LimitTooSmall))
        else if l > MaxPageSize then Err(Invalid(LimitTooLarge))
        else Ok(Paging(p, l))
  }

  /** For parameters written as numbers, the verdict is decided by the bounds
      alone, checked page first, then the lower and upper limit bound. */
  lemma NumericParamsVerdict(p: int, l: int)
    ensures ValidatePaginationParams(Some(FormatInt(p)), Some(FormatInt(l))) ==
      if p < 1 then Err(Invalid(PageTooSmall))
      else if l < 1 then Err(Invalid(LimitTooSmall))
      else if l > 50 then Err(Invalid(LimitTooLarge))
      else Ok(Paging(p, l))
  {
    ParseFormatRoundTrip(p);
    ParseFormatRoundTrip(l);
  }

  /** A non-empty page parameter without a digit is rejected as non-numeric,
      whatever the limit. */
  lemma NonNumericPageRejected(text: string, limit: Option<string>)
    requires text != ""
    requires forall i :: 0 <= i < |text| ==> !IsAsciiDigit(text[i])
    ensures ValidatePaginationParams(Some(text), limit) == Err(Invalid(NotNumeric))
  {
    if ParseInt(text).Some? {
      ParsedHasDigit(text);
    }
  }

  /** A non-empty limit parameter without a digit is rejected as non-numeric
      once the page parameter converts, even if the page is out of range. */
  lemma NonNumericLimitRejected(page: Option<string>, text: string)
    requires IntOrDefault(page, DefaultPage).Some?
    requires text != ""
    requires forall i :: 0 <= i < |text| ==> !IsAsciiDigit(text[i])
    ensures ValidatePaginationParams(page, Some(text)) == Err(Invalid(NotNumeric))
  {
    if ParseInt(text).Some? {
      ParsedHasDigit(text);
    }
  }

  /** `offset = (page - 1) * limit`. */
  function Offset(p: Paging): nat
  {
    (p.page - 1) * p.limit
  }

  /** Page `page + 1` starts where page `page` ends, and page 1 starts at 0. */
  lemma ConsecutivePagesAdjoin(p: Paging)
    ensures Offset(Paging(p.page + 1, p.limit)) == Offset(p) + p.limit
    ensures p.page == 1 <==> Offset(p) == 0
  {
    assert Offset(Paging(p.page + 1, p.limit)) == p.page * p.limit;
    if p.page > 1 {
      MulPositive(p.page - 1, p.limit);
    }
  }

  lemma MulPositive(a: nat, b: nat)
    requires a >= 1 && b >= 1
    ensures a * b >= b
  {
  }

  lemma MulMonotone(a: nat, b: nat, c: nat)
    ensures a <= b ==> a * c <= b * c
  {
  }

  /** Quotient and remainder of non-negative numbers, stated with products
      only. */
  lemma DivMod(x: nat, d: Pos)
    ensures x == (x / d) * d + x % d && 0 <= x % d < d
  {
  }

  /** The metadata block of the list responses. */
  function Meta(p: Paging, total: nat): (m: PageMeta)
    ensures m.totalPages * p.limit >= total
    ensures m.totalPages == 0 || (m.totalPages - 1) * p.limit < total
    ensures m.hasNext <==> p.page < m.totalPages
    ensures m.hasPrevious <==> Offset(p) > 0
    ensures m.currentPage == p.page && m.totalCount == total && m.limit == p.limit
  {
    var tp := (total + p.limit - 1) / p.limit;
    CeilingDivision(total, p.limit);
    HasNextMeansLaterPage(p.page, p.limit, total, tp);
    ConsecutivePagesAdjoin(p);
    PageMeta(tp, p.page, total, p.page * p.limit < total, p.page > 1, p.limit)
  }

  /** `(total + limit - 1) // limit` is the ceiling of `total / limit`. */
  lemma CeilingDivision(total: nat, limit: Pos)
    ensures var tp := (total + limit - 1) / limit;
      tp * limit >= total && (tp == 0 || (tp - 1) * limit < total)
  {
    var x := total + limit - 1;
    var tp := x / limit;
    DivMod(x, limit);
    assert tp * limit == x - x % limit;
    if tp > 0 {
      assert (tp - 1) * limit == tp * limit - limit;
    }
  }

  lemma HasNextMeansLaterPage(page: Pos, limit: Pos, total: nat, tp: nat)
    requires tp * limit >= total && (tp == 0 || (tp - 1) * limit < total)
    ensures page * limit < total <==> page < tp
  {
    if page < tp {
      MulMonotone(page, tp - 1, limit);
    }
    if page >= tp {
      MulMonotone(tp, page, limit);
    }
  }

  /** `has_next` says exactly that the following page has at least one row. */
  lemma {:induction false} HasNextIffNextPageNonEmpty<T>(xs: seq<T>, p: Paging)
    ensures Meta(p, |xs|).hasNext <==> |Window(xs, Offset(Paging(p.page + 1, p.limit)), p.limit)| > 0
  {
    ConsecutivePagesAdjoin(p);
    var m := Meta(p, |xs|);
    CeilingDivision(|xs|, p.limit);
    HasNextMeansLaterPage(p.page, p.limit, |xs|, m.totalPages);
  }

  /** Pages split the list: row `k` is on page `k / limit + 1` at position
      `k % limit`, and that page is within `total_pages`. */
  lemma EveryRowOnAPage<T>(xs: seq<T>, limit: Pos, k: nat)
    requires k < |xs|
    ensures var p := Paging(k / limit + 1, limit);
      && p.page <= Meta(p, |xs|).totalPages
      && Window(xs, Offset(p), limit)[k % limit] == xs[k]
  {
    var p := Paging(k / limit + 1, limit);
    DivMod(k, limit);
    assert Offset(p) == (k / limit) * limit;
    var m := Meta(p, |xs|);
    if m.totalPages < p.page {
      MulMonotone(m.totalPages, k / limit, limit);
    }
  }

  /** ... and no other page holds row `k`. */
  lemma NoOtherPageHoldsRow(limit: Pos, k: nat, q: Pos)
    requires Offset(Paging(q, limit)) <= k < Offset(Paging(q, limit)) + limit
    ensures q == k / limit + 1
  {
    var a := q - 1;
    var b := k / limit;
    DivMod(k, limit);
    assert a * limit <= k < a * limit + limit;
    assert (a + 1) * limit == a * limit + limit;
    assert (b + 1) * limit == b * limit + limit;
    MulMonotone(a + 1, b, limit);
    MulMonotone(b + 1, a, limit);
  }

  /** The worked example of the pagination metadata: the second page of ten
      over 25 rows. */
  lemma SecondPageOfTwentyFive()
    ensures Meta(Paging(2, 10), 25) == PageMeta(3, 2, 25, true, true, 10)
    ensures Offset(Paging(2, 10)) == 10
  {
  }
}
