/** The listing handler's page arithmetic: reading `page` and `limit` from the
    query string, the row offset, `LIMIT … OFFSET …` and the page count. */
module Paging {
  import opened Wrappers
  import opened Text

  const DefaultPage: int := 1
  const DefaultLimit: int := 20
  const MaxLimit: int := 100

  /** `parseInt(req.query.x as string)`: an absent parameter is `undefined`,
      which `parseInt` reads as `NaN`. */
  function ParseParam(raw: Option<string>): Option<int> {
    match raw
    case None => None
    case Some(s) => ParseInt(s)
  }

  /** `parseInt(...) || d`: `NaN` and `0` (also `-0`) are falsy. */
  function OrDefault(parsed: Option<int>, d: int): int {
    match parsed
    case Some(v) => if v != 0 then v else d
    case None => d
  }

  /** `Math.max(1, parseInt(page) || 1)`. */
  function EffectivePage(raw: Option<string>): (page: int)
    ensures page >= 1
    ensures ParseParam(raw).Some? && ParseParam(raw).value >= 1 ==> page == ParseParam(raw).value
    ensures ParseParam(raw).None? || ParseParam(raw).value < 1 ==> page == 1
  {
    var v := OrDefault(ParseParam(raw), DefaultPage);
    if v < 1 then 1 else v
  }

  /** `Math.min(100, Math.max(1, parseInt(limit) || 20))`. */
  function EffectiveLimit(raw: Option<string>): (limit: int)
    ensures 1 <= limit <= MaxLimit
    ensures ParseParam(raw).None? || ParseParam(raw).value == 0 ==> limit == DefaultLimit
    ensures ParseParam(raw).Some? && ParseParam(raw).value < 0 ==> limit == 1
    ensures ParseParam(raw).Some? && ParseParam(raw).value > MaxLimit ==> limit == MaxLimit
    ensures ParseParam(raw).Some? && 1 <= ParseParam(raw).value <= MaxLimit ==> limit == ParseParam(raw).value
  {
    var v := OrDefault(ParseParam(raw), DefaultLimit);
    if v < 1 then 1 else if v > MaxLimit then MaxLimit else v
  }

  /** A page number written in decimal, as the dashboard puts it in the query
      string, is read back unchanged; its negation clamps to the first page. */
  lemma PageRoundTrip(n: nat)
    ensures n >= 1 ==> EffectivePage(Some(DecimalText(n))) == n
    ensures EffectivePage(Some("-" + DecimalText(n))) == 1
    ensures EffectivePage(None) == 1 && EffectiveLimit(None) == DefaultLimit
  {
    ParseIntDecimal(n);
  }

  /** A limit written in decimal is read back unchanged when it lies in
      [1, 100], clamped to 100 above, and `0` falls back to the default. */
  lemma LimitRoundTrip(n: nat)
    ensures 1 <= n <= MaxLimit ==> EffectiveLimit(Some(DecimalText(n))) == n
    ensures n > MaxLimit ==> EffectiveLimit(Some(DecimalText(n))) == MaxLimit
    ensures EffectiveLimit(Some(DecimalText(0))) == DefaultLimit
  {
    ParseIntDecimal(n);
    ParseIntDecimal(0);
  }

  /** `(page - 1) * limit`: a non-negative multiple of `limit`. */
  function Offset(page: int, limit: int): (offset: nat)
    requires page >= 1 && limit >= 1
    ensures offset % limit == 0
    ensures offset / limit == page - 1
  {
    var k: nat := page - 1;
    MultipleOf(k, limit);
    k * limit
  }

  /** A later page starts at or after the end of an earlier one, so two
      pages never share a row. */
  lemma PagesApart(p: int, q: int, limit: int)
    requires 1 <= p < q && limit >= 1
    ensures Offset(p, limit) + limit <= Offset(q, limit)
  {
    MulMono(p, q - 1, limit);
    assert (p - 1) * limit + limit == p * limit;
  }

  lemma MultipleOf(k: nat, limit: int)
    requires limit >= 1
    ensures (k * limit) % limit == 0 && (k * limit) / limit == k
  {
    var q, r := (k * limit) / limit, (k * limit) % limit;
    assert (k - q) * limit == r;
    MulSign(k - q, limit);
  }

  /** The sign of a multiple of a positive number follows its factor. */
  lemma MulSign(d: int, limit: int)
    requires limit >= 1
    ensures d >= 1 ==> d * limit >= limit
    ensures d <= -1 ==> d * limit <= -limit
    ensures d == 0 ==> d * limit == 0
  {
  }

  /** `pages` is the ceiling of `total / limit`: no pages for no rows, and
      otherwise just enough pages of `limit` rows to hold `total` rows. */
  predicate IsCeiling(pages: nat, total: nat, limit: int) {
    && (pages == 0 <==> total == 0)
    && (total > 0 ==> (pages - 1) * limit < total <= pages * limit)
  }

  /** `Math.ceil(total / limit)` for a positive `limit`. */
  function TotalPages(total: nat, limit: int): (pages: nat)
    requires limit >= 1
    ensures IsCeiling(pages, total, limit)
  {
    var q := (total + limit - 1) / limit;
    CeilBounds(total, limit);
    q
  }

  lemma CeilBounds(total: nat, limit: int)
    requires limit >= 1
    ensures ((total + limit - 1) / limit == 0) <==> total == 0
    ensures total > 0 ==> ((total + limit - 1) / limit - 1) * limit < total <= ((total + limit - 1) / limit) * limit
  {
    var q := (total + limit - 1) / limit;
    var r := (total + limit - 1) % limit;
    assert q * limit + r == total + limit - 1;
    assert 0 <= r < limit;
    MulSign(q, limit);
    assert (q - 1) * limit == q * limit - limit;
  }

  /** `LIMIT limit OFFSET offset` over the ordered rows. */
  function Slice<T>(xs: seq<T>, offset: nat, limit: nat): (r: seq<T>)
    ensures |r| <= limit
    ensures offset >= |xs| ==> r == []
    ensures offset < |xs| ==> r == xs[offset..if offset + limit <= |xs| then offset + limit else |xs|]
  {
    if offset >= |xs| then []
    else xs[offset..if offset + limit <= |xs| then offset + limit else |xs|]
  }

  /** A page lies inside the result exactly when its number is at most the page
      count; every later page is empty. */
  lemma PageInRange<T>(xs: seq<T>, page: int, limit: int)
    requires page >= 1 && limit >= 1
    ensures Slice(xs, Offset(page, limit), limit) == [] <==> page > TotalPages(|xs|, limit)
  {
    var tp := TotalPages(|xs|, limit);
    var offset := Offset(page, limit);
    assert offset == (page - 1) * limit;
    if page > tp {
      assert page - 1 >= tp;
      MulMono(tp, page - 1, limit);
    } else {
      assert |xs| > 0;
      MulMono(page - 1, tp - 1, limit);
    }
  }

  lemma MulMono(a: int, b: int, limit: int)
    requires 0 <= a <= b && limit >= 1
    ensures a * limit <= b * limit
  {
  }

  /** Pages 1 to `n` put one after the other. */
  function PagesUpTo<T>(xs: seq<T>, limit: int, n: nat): seq<T>
    requires limit >= 1
  {
    if n == 0 then [] else PagesUpTo(xs, limit, n - 1) + Slice(xs, Offset(n, limit), limit)
  }

  /** Page `n` starts where the first `n - 1` pages end. */
  lemma NextPageStart(n: nat, limit: int)
    requires n > 0 && limit >= 1
    ensures Offset(n, limit) == (n - 1) * limit
    ensures n * limit == (n - 1) * limit + limit
  {
  }

  /** A prefix followed by the slice that starts where it ends is a longer prefix. */
  lemma PrefixThenSlice<T>(xs: seq<T>, start: nat, limit: nat)
    ensures xs[..if start <= |xs| then start else |xs|] + Slice(xs, start, limit)
         == xs[..if start + limit <= |xs| then start + limit else |xs|]
  {
    if start < |xs| {
      var hi := if start + limit <= |xs| then start + limit else |xs|;
      assert xs[..start] + xs[start..hi] == xs[..hi];
    }
  }

  /** The first `n` pages are the first `n * limit` rows. */
  lemma {:induction false} PagesUpToPrefix<T>(xs: seq<T>, limit: int, n: nat)
    requires limit >= 1
    ensures PagesUpTo(xs, limit, n) == xs[..if n * limit <= |xs| then n * limit else |xs|]
  {
    if n > 0 {
      PagesUpToPrefix(xs, limit, n - 1);
      NextPageStart(n, limit);
      PrefixThenSlice(xs, (n - 1) * limit, limit);
    }
  }

  /** Concatenating pages 1 to `TotalPages` gives back every row exactly once,
      in order: no row is repeated and none is skipped. */
  lemma PagesCover<T>(xs: seq<T>, limit: int)
    requires limit >= 1
    ensures PagesUpTo(xs, limit, TotalPages(|xs|, limit)) == xs
  {
    var tp := TotalPages(|xs|, limit);
    PagesUpToPrefix(xs, limit, tp);
    assert xs[..|xs|] == xs;
  }
}
