/**
 * The pagination engine of PaginationService.
 *
 * A requested `page` and `pageSize` arrive as JavaScript numbers that may be
 * missing. Here they are `Option<real>`: `None` stands for undefined, null and
 * NaN (a query-string value that is not numeric converts to NaN), and
 * `Some(x)` for a finite number. The engine turns them, together with the
 * number of rows in the table, into the `skip`/`take` window of a database
 * query and the page metadata shown to the caller.
 */
module Pagination {
  import opened Wrappers

  /** PaginationService.DEFAULT_PAGE_SIZE. */
  const DEFAULT_PAGE_SIZE: int := 10

  /** The page used when no usable page is requested. */
  const DEFAULT_PAGE: int := 1

  /**
   * The JavaScript numbers `calculateTotalPages` can produce: a finite
   * integer, or, after a division by zero, Infinity or NaN.
   */
  datatype JsNumber = Finite(value: int) | PositiveInfinity | NaN

  /** What `paginate` returns. */
  datatype PageResult = PageResult(skip: int, take: int, totalPages: int, currentPage: int)

  function Max(a: int, b: int): int { if a < b then b else a }

  function Abs(x: real): real { if x < 0.0 then -x else x }

  /** Math.ceil on a finite number: the least integer not below `x`. */
  function Ceil(x: real): (r: int)
    ensures (r - 1) as real < x <= r as real
  {
    -((-x).Floor)
  }

  /** True when `x` is a whole number, as `Number.isInteger` would say. */
  predicate IsIntegral(x: real) { x == x.Floor as real }

  /** An argument that is absent or a whole number. */
  predicate IntegralOrAbsent(v: Option<real>) { v.None? || IsIntegral(v.value) }

  /**
   * normalize: absent stays absent, any number becomes its absolute value.
   */
  function Normalize(value: Option<real>): (r: Option<real>)
    ensures r.None? <==> value.None?
    ensures r.Some? ==> r.value >= 0.0 && (r.value == value.value || r.value == -value.value)
  {
    match value
    case None => None
    case Some(n) => Some(Abs(n))
  }

  /** JavaScript truthiness of a normalized number: absent and 0 are falsy. */
  predicate Truthy(p: Option<real>) { p.Some? && p.value != 0.0 }

  /**
   * The shape shared by resolvePage and resolvePageSize: `p && p > 0 ?
   * Math.floor(p) : fallback` on the normalized argument. The positivity test
   * comes before the flooring, so a magnitude strictly between 0 and 1 passes
   * the test and floors to 0.
   */
  function ResolvePositive(value: Option<real>, fallback: int): (r: int)
    requires fallback >= 1
    ensures r >= 0
    ensures r == 0 <==> value.Some? && 0.0 < Abs(value.value) < 1.0
    ensures value.None? || value.value == 0.0 ==> r == fallback
    ensures value.Some? && value.value != 0.0 ==>
      r as real <= Abs(value.value) < (r + 1) as real
    ensures value.Some? && IsIntegral(value.value) && value.value != 0.0 ==>
      r >= 1 && (r == value.value.Floor || r == -value.value.Floor)
  {
    var p := Normalize(value);
    if Truthy(p) && p.value > 0.0 then p.value.Floor else fallback
  }

  /** resolvePage: the page to show, 1 when none is usable. */
  function ResolvePage(page: Option<real>): (r: int)
    ensures r >= 0
    ensures page.None? || page.value == 0.0 ==> r == DEFAULT_PAGE
    ensures page.Some? && page.value != 0.0 ==> r as real <= Abs(page.value) < (r + 1) as real
    ensures IntegralOrAbsent(page) ==> r >= 1
  {
    ResolvePositive(page, DEFAULT_PAGE)
  }

  /** resolvePageSize: the page size, DEFAULT_PAGE_SIZE when none is usable. */
  function ResolvePageSize(pageSize: Option<real>): (r: int)
    ensures r >= 0
    ensures pageSize.None? || pageSize.value == 0.0 ==> r == DEFAULT_PAGE_SIZE
    ensures pageSize.Some? && pageSize.value != 0.0 ==> r as real <= Abs(pageSize.value) < (r + 1) as real
    ensures IntegralOrAbsent(pageSize) ==> r >= 1
  {
    ResolvePositive(pageSize, DEFAULT_PAGE_SIZE)
  }

  /**
   * getSkip: how many rows the earlier pages hold, never negative.
   */
  function GetSkip(page: Option<real>, pageSize: Option<real>): (r: int)
    ensures r >= 0
    ensures ResolvePage(page) >= 1 ==> r == (ResolvePage(page) - 1) * ResolvePageSize(pageSize)
    ensures ResolvePage(page) == 0 ==> r == 0
  {
    var p := ResolvePage(page);
    var ps := ResolvePageSize(pageSize);
    Max((p - 1) * ps, 0)
  }

  /** getTake: the number of rows to fetch. */
  function GetTake(pageSize: Option<real>): (r: int)
    ensures r >= 0
    ensures pageSize.None? || pageSize.value == 0.0 ==> r == DEFAULT_PAGE_SIZE
    ensures pageSize.Some? && pageSize.value != 0.0 ==> r as real <= Abs(pageSize.value) < (r + 1) as real
    ensures IntegralOrAbsent(pageSize) ==> r >= 1
  {
    ResolvePageSize(pageSize)
  }

  /**
   * calculateTotalPages: `Math.max(Math.ceil(totalCount / ps), 1)` with `ps`
   * the resolved page size. When `ps` resolves to 0 the JavaScript division
   * yields Infinity (positive count), NaN (zero count) or -Infinity
   * (negative count, which Math.max turns into 1).
   */
  function CalculateTotalPages(totalCount: int, pageSize: Option<real>): (r: JsNumber)
    ensures r.Finite? ==> r.value >= 1
    ensures ResolvePageSize(pageSize) >= 1 ==> r.Finite?
    ensures ResolvePageSize(pageSize) >= 1 && totalCount <= ResolvePageSize(pageSize) ==> r == Finite(1)
    ensures ResolvePageSize(pageSize) >= 1 && totalCount > 0 ==>
      (r.value - 1) * ResolvePageSize(pageSize) < totalCount <= r.value * ResolvePageSize(pageSize)
    ensures ResolvePageSize(pageSize) == 0 ==>
      r == if totalCount > 0 then PositiveInfinity else if totalCount == 0 then NaN else Finite(1)
  {
    var ps := ResolvePageSize(pageSize);
    if ps > 0 then
      Finite(PageCount(totalCount, ps))
    else if totalCount > 0 then PositiveInfinity
    else if totalCount == 0 then NaN
    else Finite(1)
  }

  /**
   * `Math.max(Math.ceil(totalCount / ps), 1)` for a page size of at least 1:
   * the fewest pages of `ps` rows that hold the count, and never fewer than 1.
   */
  function PageCount(totalCount: int, ps: int): (t: int)
    requires ps >= 1
    ensures t >= 1
    ensures totalCount <= ps ==> t == 1
    ensures totalCount > 0 ==> (t - 1) * ps < totalCount <= t * ps
  {
    var c := Ceil(totalCount as real / ps as real);
    CeilDivBounds(totalCount, ps);
    FitsOnePage(totalCount, ps, c);
    Max(c, 1)
  }

  /**
   * paginate: returns the query window with the page metadata. The page is
   * resolved twice (directly and inside getSkip) and the page size three
   * times (in getTake, inside getSkip, and once more when the resolved `take`
   * is passed back through calculateTotalPages). A `take` of 0 is resolved
   * there to DEFAULT_PAGE_SIZE.
   */
  function Paginate(page: Option<real>, pageSize: Option<real>, totalCount: int := 0): (r: PageResult)
    ensures r.currentPage == ResolvePage(page) && r.take == ResolvePageSize(pageSize)
    ensures r.totalPages >= 1
    ensures r.skip >= 0 && r.take >= 0 && r.currentPage >= 0
    ensures r.skip == Max((r.currentPage - 1) * r.take, 0)
    ensures r.take >= 1 && totalCount > 0 ==>
      (r.totalPages - 1) * r.take < totalCount <= r.totalPages * r.take
    ensures r.take >= 1 && totalCount <= r.take ==> r.totalPages == 1
    ensures r.take == 0 ==> r.totalPages == PageCount(totalCount, DEFAULT_PAGE_SIZE)
  {
    var currentPage := ResolvePage(page);
    var take := GetTake(pageSize);
    var skip := GetSkip(page, pageSize);
    ResolvePageSizeIdempotent(take);
    var totalPages := CalculateTotalPages(totalCount, Some(take as real));
    PageResult(skip, take, totalPages.value, currentPage)
  }

  // ---------------------------------------------------------------------------
  // Arithmetic facts

  /** `Ceil(n / d)` is the number of blocks of `d` needed to cover `n`. */
  lemma CeilDivBounds(n: int, d: int)
    requires d >= 1
    ensures var t := Ceil(n as real / d as real);
      (t - 1) * d < n <= t * d
  {
    var q := n as real / d as real;
    var t := Ceil(q);
    assert q * d as real == n as real;
    assert (t - 1) as real < q <= t as real;
    assert (t - 1) as real * d as real < q * d as real by {
      MulStrictMonotone((t - 1) as real, q, d as real);
    }
    assert q * d as real <= t as real * d as real by {
      MulMonotone(q, t as real, d as real);
    }
    assert ((t - 1) * d) as real == (t - 1) as real * d as real;
    assert (t * d) as real == t as real * d as real;
  }

  lemma MulStrictMonotone(a: real, b: real, c: real)
    requires a < b && c > 0.0
    ensures a * c < b * c
  {
    assert b * c - a * c == (b - a) * c;
  }

  lemma MulMonotone(a: real, b: real, c: real)
    requires a <= b && c > 0.0
    ensures a * c <= b * c
  {
    assert b * c - a * c == (b - a) * c;
  }

  /** The integer ceiling division used as an independent reference. */
  function CeilDiv(n: nat, d: int): (r: nat)
    requires d >= 1
  {
    (n + d - 1) / d
  }

  /** An integer `t` with `(t - 1) * d < n <= t * d` is unique. */
  lemma {:induction false} CoverIsUnique(n: int, d: int, t: int, u: int)
    requires d >= 1
    requires (t - 1) * d < n <= t * d
    requires (u - 1) * d < n <= u * d
    ensures t == u
  {
    if t < u {
      assert t <= u - 1;
      assert t * d <= (u - 1) * d by { IntMulMonotone(t, u - 1, d); }
    } else if u < t {
      assert u * d <= (t - 1) * d by { IntMulMonotone(u, t - 1, d); }
    }
  }

  /** A count that fits in one page needs at most one block. */
  lemma FitsOnePage(n: int, d: int, t: int)
    requires d >= 1 && (t - 1) * d < n
    ensures n <= d ==> t <= 1
  {
    if t >= 2 {
      IntMulMonotone(1, t - 1, d);
    }
  }

  lemma IntMulMonotone(a: int, b: int, d: int)
    requires a <= b && d >= 1
    ensures a * d <= b * d
  {
    assert b * d - a * d == (b - a) * d;
  }

  /** The real ceiling and the integer ceiling division agree. */
  lemma {:induction false} CeilMatchesCeilDiv(n: nat, d: int)
    requires d >= 1
    ensures Ceil(n as real / d as real) == CeilDiv(n, d)
  {
    var q := CeilDiv(n, d);
    assert q * d <= n + d - 1 < (q + 1) * d;
    assert (q - 1) * d < n <= q * d;
    CeilDivBounds(n, d);
    CoverIsUnique(n, d, Ceil(n as real / d as real), q);
  }

  // ---------------------------------------------------------------------------
  // Properties of paginate as written

  /**
   * Absent, null, NaN or 0 for both arguments give page 1 with 10 rows, and
   * the count is split into pages of 10.
   */
  lemma PaginateDefaults(page: Option<real>, pageSize: Option<real>, totalCount: nat)
    requires page.None? || page.value == 0.0
    requires pageSize.None? || pageSize.value == 0.0
    ensures Paginate(page, pageSize, totalCount) ==
      PageResult(0, DEFAULT_PAGE_SIZE, Max(1, CeilDiv(totalCount, DEFAULT_PAGE_SIZE)), DEFAULT_PAGE)
  {
    CeilMatchesCeilDiv(totalCount, DEFAULT_PAGE_SIZE);
  }

  /** The first page of an empty table, with page 1 and size 10 given. */
  lemma PaginateFirstPageOfEmptyTable()
    ensures Paginate(Some(1.0), Some(10.0)) == PageResult(0, 10, 1, 1)
  {
  }

  /** Page 3 of size 10 skips the 20 rows of pages 1 and 2; 45 rows make 5 pages. */
  lemma PaginateThirdPage()
    ensures Paginate(Some(3.0), Some(10.0), 45) == PageResult(20, 10, 5, 3)
  {
    CeilMatchesCeilDiv(45, 10);
  }

  /** A negative argument behaves as its absolute value: page -3 is page 3. */
  lemma PaginateAbsoluteValue(page: Option<real>, pageSize: Option<real>, totalCount: int)
    ensures page.Some? ==>
      Paginate(Some(-page.value), pageSize, totalCount) == Paginate(page, pageSize, totalCount)
    ensures pageSize.Some? ==>
      Paginate(page, Some(-pageSize.value), totalCount) == Paginate(page, pageSize, totalCount)
  {
  }

  /**
   * For whole-number or absent arguments the window is well formed: a page
   * of at least 1, at least one row per page, and a skip that is exactly the
   * rows of the earlier pages, hence a multiple of `take`.
   */
  lemma PaginateIntegral(page: Option<real>, pageSize: Option<real>, totalCount: int)
    requires IntegralOrAbsent(page) && IntegralOrAbsent(pageSize)
    ensures var r := Paginate(page, pageSize, totalCount);
      && r.currentPage >= 1 && r.take >= 1
      && r.skip == (r.currentPage - 1) * r.take
      && r.skip % r.take == 0
  {
    var r := Paginate(page, pageSize, totalCount);
    assert r.skip == (r.currentPage - 1) * r.take;
    assert r.skip % r.take == 0 by { MultipleMod(r.currentPage - 1, r.take); }
  }

  lemma MultipleMod(k: int, d: int)
    requires d >= 1
    ensures (k * d) % d == 0
  {
    var q, m := (k * d) / d, (k * d) % d;
    assert k * d == q * d + m && 0 <= m < d;
    assert m == (k - q) * d;
    if k - q >= 1 {
      IntMulMonotone(1, k - q, d);
    } else if k - q <= -1 {
      IntMulMonotone(k - q, -1, d);
    }
  }

  /**
   * For a non-negative count and a page size that resolves to at least one
   * row, the page count is `max(1, ceil(totalCount / take))`, computed here
   * in integers.
   */
  lemma {:induction false} TotalPagesIsCeiling(page: Option<real>, pageSize: Option<real>, totalCount: nat)
    requires ResolvePageSize(pageSize) >= 1
    ensures var r := Paginate(page, pageSize, totalCount);
      r.take == ResolvePageSize(pageSize) && r.totalPages == Max(1, CeilDiv(totalCount, r.take))
  {
    var r := Paginate(page, pageSize, totalCount);
    CeilMatchesCeilDiv(totalCount, r.take);
  }

  /**
   * resolvePageSize leaves a positive whole number as it is, so the second
   * resolution inside paginate does not change a `take` of at least 1.
   */
  lemma ResolvePageSizeIdempotent(take: int)
    ensures take >= 1 ==> ResolvePageSize(Some(take as real)) == take
    ensures take == 0 ==> ResolvePageSize(Some(take as real)) == DEFAULT_PAGE_SIZE
  {
  }

  /** Passing the resolved size back to calculateTotalPages gives the same count. */
  lemma TotalPagesStableUnderResolution(totalCount: int, pageSize: Option<real>)
    requires ResolvePageSize(pageSize) >= 1
    ensures CalculateTotalPages(totalCount, Some(ResolvePageSize(pageSize) as real))
         == CalculateTotalPages(totalCount, pageSize)
  {
    ResolvePageSizeIdempotent(ResolvePageSize(pageSize));
  }

  // ---------------------------------------------------------------------------
  // Finding: the positivity test runs before the flooring

  /**
   * As written, a magnitude strictly between 0 and 1 resolves to 0, although
   * both resolvers promise a positive integer. paginate then fetches no rows
   * while reporting pages of 10, and calculateTotalPages called directly
   * divides by zero.
   */
  lemma FractionalArgumentResolvesToZero(x: real)
    requires 0.0 < Abs(x) < 1.0
    ensures ResolvePage(Some(x)) == 0 && ResolvePageSize(Some(x)) == 0
    ensures Paginate(Some(x), None, 25) == PageResult(0, 10, 3, 0)
    ensures Paginate(None, Some(x), 25) == PageResult(0, 0, 3, 1)
    ensures CalculateTotalPages(0, Some(x)) == NaN
    ensures CalculateTotalPages(25, Some(x)) == PositiveInfinity
  {
    CeilMatchesCeilDiv(25, 10);
  }

  /** The evidently intended resolver: floor first, then test for a positive value. */
  function ResolvePositiveFixed(value: Option<real>, fallback: int): (r: int)
    requires fallback >= 1
    ensures r >= 1
    ensures value.None? || Abs(value.value) < 1.0 ==> r == fallback
    ensures value.Some? && Abs(value.value) >= 1.0 ==> r as real <= Abs(value.value) < (r + 1) as real
  {
    var p := Normalize(value);
    if p.Some? && p.value.Floor > 0 then p.value.Floor else fallback
  }

  /** paginate built on the corrected resolver. */
  function PaginateFixed(page: Option<real>, pageSize: Option<real>, totalCount: int := 0): (r: PageResult)
    ensures r.currentPage == ResolvePositiveFixed(page, DEFAULT_PAGE)
    ensures r.take == ResolvePositiveFixed(pageSize, DEFAULT_PAGE_SIZE)
    ensures r.currentPage >= 1 && r.take >= 1 && r.totalPages >= 1
    ensures r.skip == (r.currentPage - 1) * r.take
    ensures totalCount > 0 ==> (r.totalPages - 1) * r.take < totalCount <= r.totalPages * r.take
    ensures totalCount <= r.take ==> r.totalPages == 1
  {
    var currentPage := ResolvePositiveFixed(page, DEFAULT_PAGE);
    var take := ResolvePositiveFixed(pageSize, DEFAULT_PAGE_SIZE);
    PageResult((currentPage - 1) * take, take, PageCount(totalCount, take), currentPage)
  }

  /**
   * The correction changes nothing except for magnitudes strictly between 0
   * and 1; in particular it agrees with paginate on all whole-number input.
   */
  lemma PaginateFixedAgrees(page: Option<real>, pageSize: Option<real>, totalCount: int)
    requires page.None? || !(0.0 < Abs(page.value) < 1.0)
    requires pageSize.None? || !(0.0 < Abs(pageSize.value) < 1.0)
    ensures PaginateFixed(page, pageSize, totalCount) == Paginate(page, pageSize, totalCount)
  {
    ResolvePageSizeIdempotent(ResolvePageSize(pageSize));
  }

  /**
   * Under the correction a page whose magnitude is below 1 falls back to the
   * first page and a size whose magnitude is below 1 falls back to 10 rows,
   * each independently of the other argument and for every count.
   */
  lemma {:induction false} FixedFractionalArgumentDefaults(page: Option<real>, pageSize: Option<real>, totalCount: int)
    ensures var r := PaginateFixed(page, pageSize, totalCount);
      page.Some? && Abs(page.value) < 1.0 ==> r.currentPage == DEFAULT_PAGE && r.skip == 0
    ensures var r := PaginateFixed(page, pageSize, totalCount);
      pageSize.Some? && Abs(pageSize.value) < 1.0 ==>
        r.take == DEFAULT_PAGE_SIZE
        && (totalCount >= 0 ==> r.totalPages == Max(1, CeilDiv(totalCount, DEFAULT_PAGE_SIZE)))
  {
    if totalCount >= 0 {
      CeilMatchesCeilDiv(totalCount, DEFAULT_PAGE_SIZE);
    }
  }
}
