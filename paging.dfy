/** The pagination rule shared by the issue list and the user list:
    `parseInt(x) || default`, the accepted ranges, the OFFSET, the page
    count reported to the client and the rows LIMIT/OFFSET keeps. */
module Paging {
  import opened Common

  const DefaultPage: int := 1
  const DefaultLimit: int := 10
  const MaxLimit: int := 100

  datatype Paging = Paging(page: int, limit: int, offset: int)

  /** `parseInt(x) || fallback`: an absent, unparsable or zero value means
      the fallback. */
  function OrFallback(x: Option<int>, fallback: int): (r: int)
    ensures (x.None? || x.value == 0) ==> r == fallback
    ensures x.Some? && x.value != 0 ==> r == x.value
  {
    if x.None? || x.value == 0 then fallback else x.value
  }

  /** The page and limit of a list request, or None where the handler
      answers 400 "Invalid pagination parameters". */
  function Paginate(page: Option<int>, limit: Option<int>): (r: Option<Paging>)
    ensures r.Some? <==> (page.None? || page.value >= 0) && (limit.None? || 0 <= limit.value <= MaxLimit)
    ensures r.Some? ==> 1 <= r.value.page && 1 <= r.value.limit <= MaxLimit
    ensures r.Some? ==> r.value.offset == (r.value.page - 1) * r.value.limit >= 0
    ensures r.Some? ==> r.value.page == OrFallback(page, DefaultPage)
    ensures r.Some? ==> r.value.limit == OrFallback(limit, DefaultLimit)
  {
    var p := OrFallback(page, DefaultPage);
    var l := OrFallback(limit, DefaultLimit);
    if p < 1 || l < 1 || l > MaxLimit then None
    else
      Some(Paging(p, l, (p - 1) * l))
  }

  /** A zero page or limit falls back to the default instead of being
      rejected; 101 and negative values are rejected. */
  lemma ZeroMeansDefault()
    ensures Paginate(Some(0), Some(0)) == Some(Paging(1, 10, 0))
    ensures Paginate(None, Some(MaxLimit + 1)).None?
    ensures Paginate(Some(-1), None).None?
    ensures Paginate(None, Some(-5)).None?
  {
  }

  /** `Math.ceil(total / limit)`. */
  function PageCount(total: nat, limit: int): (r: nat)
    requires limit >= 1
    ensures r * limit >= total
    ensures (r - 1) * limit < total || r == 0
    ensures total == 0 ==> r == 0
  {
    var q := (total + limit - 1) / limit;
    CeilingBounds(total, limit, q);
    q
  }

  lemma CeilingBounds(total: nat, limit: int, q: int)
    requires limit >= 1 && q == (total + limit - 1) / limit
    ensures q >= 0
    ensures q * limit >= total
    ensures (q - 1) * limit < total || q == 0
    ensures total == 0 ==> q == 0
  {
    var n := total + limit - 1;
    var rem := n % limit;
    assert n == q * limit + rem && 0 <= rem < limit;
    assert q * limit == n - rem;
    assert (q - 1) * limit == n - rem - limit;
  }

  /** LIMIT `limit` OFFSET `offset`: at most `limit` consecutive rows
      starting at `offset`. */
  function Window<T>(s: seq<T>, offset: int, limit: int): (r: seq<T>)
    requires offset >= 0 && limit >= 0
    ensures |r| <= limit
    ensures offset <= |s| ==> |r| == if offset + limit <= |s| then limit else |s| - offset
    ensures offset >= |s| ==> r == []
    ensures forall k :: 0 <= k < |r| ==> offset + k < |s| && r[k] == s[offset + k]
  {
    if offset >= |s| then []
    else s[offset .. if offset + limit <= |s| then offset + limit else |s|]
  }
}
