/**
 * `paginate`: the page and limit query parameters are read leniently and
 * clamped, and the query skips (page - 1) * limit items and keeps at most
 * limit. A parameter is given as the result of parseInt: None stands for NaN
 * (missing or unreadable), Some(n) for the integer read.
 */
module Pagination {
  import opened Common

  const DefaultLimit := 10

  /** `Math.max(1, parseInt(page) || 1)`: NaN and 0 are falsy and fall back to 1; below 1 is raised to 1. */
  function NormalisePage(raw: Option<int>): (page: int)
    ensures page >= 1
    ensures raw.Some? && raw.value >= 1 ==> page == raw.value
    ensures raw.None? || raw.value < 1 ==> page == 1
  {
    var v := if raw.Some? && raw.value != 0 then raw.value else 1;
    if v < 1 then 1 else v
  }

  /** `Math.max(1, parseInt(limit) || 10)`: NaN and 0 fall back to 10, a negative limit becomes 1. */
  function NormaliseLimit(raw: Option<int>): (limit: int)
    ensures limit >= 1
    ensures raw.Some? && raw.value >= 1 ==> limit == raw.value
    ensures raw.None? || raw.value == 0 ==> limit == DefaultLimit
    ensures raw.Some? && raw.value < 0 ==> limit == 1
  {
    var v := if raw.Some? && raw.value != 0 then raw.value else DefaultLimit;
    if v < 1 then 1 else v
  }

  /** Normalising an already normalised value changes nothing. */
  lemma NormaliseIdempotent(page: Option<int>, limit: Option<int>)
    ensures NormalisePage(Some(NormalisePage(page))) == NormalisePage(page)
    ensures NormaliseLimit(Some(NormaliseLimit(limit))) == NormaliseLimit(limit)
  {
  }

  /** The number of items skipped before page `page`. */
  function Skip(page: int, limit: int): (n: nat)
    requires page >= 1 && limit >= 1
  {
    (page - 1) * limit
  }

  /** Skip is never negative and always a whole number of pages. */
  lemma SkipWholePages(page: int, limit: int)
    requires page >= 1 && limit >= 1
    ensures Skip(page, limit) >= 0
    ensures Skip(page, limit) % limit == 0
    ensures Skip(page, limit) / limit == page - 1
  {
    MultipleOf(page - 1, limit, Skip(page, limit));
  }

  lemma MultipleOf(k: int, limit: int, n: int)
    requires k >= 0 && limit >= 1 && n == k * limit
    ensures n >= 0 && n / limit == k && n % limit == 0
  {
    if k > 0 {
      MulAtLeast(k, limit);
    }
    var q, r := n / limit, n % limit;
    assert n == q * limit + r && 0 <= r < limit;
    var d := k - q;
    assert d * limit == r;
    if d >= 1 {
      MulAtLeast(d, limit);
    } else if d <= -1 {
      MulAtLeast(-d, limit);
    }
  }

  lemma {:induction false} MulAtLeast(d: int, l: int)
    requires d >= 1 && l >= 1
    ensures d * l >= l
    decreases d
  {
    if d > 1 {
      MulAtLeast(d - 1, l);
      assert d * l == (d - 1) * l + l;
    }
  }

  /** Whether position `i` of the full result falls on page `page`. */
  predicate OnPage(i: int, page: int, limit: int)
    requires page >= 1 && limit >= 1
  {
    Skip(page, limit) <= i < Skip(page, limit) + limit
  }

  /** A later page starts no earlier than the end of an earlier one. */
  lemma PagesInOrder(p: int, q: int, limit: int)
    requires 1 <= p < q && limit >= 1
    ensures Skip(p, limit) + limit <= Skip(q, limit)
  {
    var d := q - p;
    assert (q - 1) * limit == (p - 1) * limit + d * limit;
    MulAtLeast(d, limit);
  }

  /** Two different pages never share a position ... */
  lemma PagesDisjoint(i: int, p: int, q: int, limit: int)
    requires p >= 1 && q >= 1 && limit >= 1 && p != q
    ensures !(OnPage(i, p, limit) && OnPage(i, q, limit))
  {
    if p < q {
      PagesInOrder(p, q, limit);
    } else {
      PagesInOrder(q, p, limit);
    }
  }

  /** ... and every position lies on a page: position i on page i / limit + 1. */
  lemma PositionOnItsPage(i: int, limit: int)
    requires i >= 0 && limit >= 1
    ensures OnPage(i, i / limit + 1, limit)
  {
    assert i == (i / limit) * limit + i % limit;
  }

  /** The number of items a page holds: the limit, or what is left after the skip, whichever is fewer. */
  function PageSize(total: nat, skip: nat, limit: nat): nat
  {
    if skip >= total then 0 else if limit < total - skip then limit else total - skip
  }

  /** `skip(from).limit(count)` on a full result. */
  function Slice<T>(items: seq<T>, from: nat, count: nat): (w: seq<T>)
    ensures |w| == PageSize(|items|, from, count)
    ensures |w| <= count
    ensures forall k :: 0 <= k < |w| ==> from + k < |items| && w[k] == items[from + k]
    ensures forall i :: from <= i < from + count && i < |items| ==> items[i] in w
  {
    var lo := if from < |items| then from else |items|;
    var hi := if from + count < |items| then from + count else |items|;
    var w := items[lo..hi];
    assert forall i :: from <= i < from + count && i < |items| ==> items[i] == w[i - lo];
    w
  }

  /** The items page `page` yields: exactly those at positions on the page, in order. */
  function Window<T>(items: seq<T>, page: int, limit: int): (w: seq<T>)
    requires page >= 1 && limit >= 1
    ensures |w| == PageSize(|items|, Skip(page, limit), limit)
    ensures |w| <= limit
    ensures forall k :: 0 <= k < |w| ==> Skip(page, limit) + k < |items| && w[k] == items[Skip(page, limit) + k]
    ensures forall i :: 0 <= i < |items| && OnPage(i, page, limit) ==> items[i] in w
  {
    Slice(items, Skip(page, limit), limit)
  }

  /** `paginate(query, req)` applied to the full result of the query. */
  function Paginate<T>(items: seq<T>, rawPage: Option<int>, rawLimit: Option<int>): (w: seq<T>)
    ensures |w| <= NormaliseLimit(rawLimit)
    ensures |w| == PageSize(|items|, Skip(NormalisePage(rawPage), NormaliseLimit(rawLimit)), NormaliseLimit(rawLimit))
    ensures forall k :: 0 <= k < |w| ==>
      var at := Skip(NormalisePage(rawPage), NormaliseLimit(rawLimit)) + k;
      at < |items| && w[k] == items[at]
  {
    Window(items, NormalisePage(rawPage), NormaliseLimit(rawLimit))
  }

  /** Without parameters a query yields its first ten items. */
  lemma FirstTenByDefault<T>(items: seq<T>)
    ensures Paginate(items, None, None) == items[..if |items| < DefaultLimit then |items| else DefaultLimit]
  {
  }
}
