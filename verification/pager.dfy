/** `fetch_all_pages`: drains a paginated list endpoint. The endpoint is a
    deterministic function from a 1-based page number to the records of that
    page; the HTTP request and the JSON decoding are not modelled. */
module Pager {
  import opened Wrappers

  const PerPage := 50

  /** The query parameters of one request: the caller's map with `page` and
      `per_page` written over it (`dict.update`). */
  function Overlay(base: map<string, int>, page: int): (q: map<string, int>)
    ensures q.Keys == base.Keys + {"page", "per_page"}
    ensures q["page"] == page && q["per_page"] == PerPage
    ensures forall key :: key in base && key != "page" && key != "per_page" ==> q[key] == base[key]
  {
    base["page" := page]["per_page" := PerPage]
  }

  /** The map the loop writes into: the caller's, or a fresh empty one. */
  function BaseParams(params: Option<map<string, int>>): map<string, int> {
    params.GetOr(map[])
  }

  /** The records of pages 1 .. n-1, in page order. */
  function PagesBefore<R>(endpoint: int -> seq<R>, n: int): seq<R>
    decreases n
  {
    if n <= 1 then [] else PagesBefore(endpoint, n - 1) + endpoint(n - 1)
  }

  /** The first empty page at or after `from`, given that page `k` is empty. */
  function FirstEmptyFrom<R>(endpoint: int -> seq<R>, from: int, k: int): (p: int)
    requires from <= k && endpoint(k) == []
    ensures from <= p <= k && endpoint(p) == []
    ensures forall q :: from <= q < p ==> endpoint(q) != []
    decreases k - from
  {
    if endpoint(from) == [] then from else FirstEmptyFrom(endpoint, from + 1, k)
  }

  /** The first empty page, given that page `k >= 1` is empty. */
  function FirstEmpty<R>(endpoint: int -> seq<R>, k: int): int
    requires 1 <= k && endpoint(k) == []
  {
    FirstEmptyFrom(endpoint, 1, k)
  }

  /** Everything the drain collects: every page before the first empty one. */
  function Drained<R>(endpoint: int -> seq<R>, k: int): seq<R>
    requires 1 <= k && endpoint(k) == []
  {
    PagesBefore(endpoint, FirstEmpty(endpoint, k))
  }

  /** The drain does not depend on which empty page witnesses termination. */
  lemma DrainedWitnessIrrelevant<R>(endpoint: int -> seq<R>, k1: int, k2: int)
    requires 1 <= k1 && endpoint(k1) == []
    requires 1 <= k2 && endpoint(k2) == []
    ensures FirstEmpty(endpoint, k1) == FirstEmpty(endpoint, k2)
    ensures Drained(endpoint, k1) == Drained(endpoint, k2)
  {
  }

  /** Every page before `n` sits, whole and in place, inside the result:
      nothing dropped, duplicated or reordered. */
  lemma {:induction false} PageInPlace<R>(endpoint: int -> seq<R>, n: int, p: int)
    requires 1 <= p < n
    ensures var offset := |PagesBefore(endpoint, p)|;
      offset + |endpoint(p)| <= |PagesBefore(endpoint, n)| &&
      PagesBefore(endpoint, n)[offset .. offset + |endpoint(p)|] == endpoint(p)
    decreases n
  {
    if p < n - 1 {
      PageInPlace(endpoint, n - 1, p);
    }
  }

  /** Draining further only appends. */
  lemma {:induction false} PagesBeforeGrows<R>(endpoint: int -> seq<R>, m: int, n: int)
    requires m <= n
    ensures PagesBefore(endpoint, m) <= PagesBefore(endpoint, n)
    decreases n - m
  {
    if m < n {
      PagesBeforeGrows(endpoint, m, n - 1);
    }
  }

  /** Requests pages 1, 2, 3, ... until one comes back empty. `k` is a page
      the endpoint answers with nothing; it bounds the loop. Returns the records,
      the parameter map of every request in order, and what the caller's
      `params` holds afterwards (None when the caller passed none). */
  method FetchAllPages<R>(endpoint: int -> seq<R>, params: Option<map<string, int>>, ghost k: int)
    returns (all: seq<R>, requests: seq<map<string, int>>, callerParams: Option<map<string, int>>)
    requires 1 <= k && endpoint(k) == []
    ensures |requests| == FirstEmpty(endpoint, k)
    ensures 1 <= |requests| <= k
    ensures endpoint(|requests|) == []
    ensures forall p :: 1 <= p < |requests| ==> endpoint(p) != []
    ensures all == Drained(endpoint, k)
    ensures endpoint(1) == [] ==> all == [] && |requests| == 1
    ensures forall i :: 0 <= i < |requests| ==> requests[i] == Overlay(BaseParams(params), i + 1)
    ensures params.None? <==> callerParams.None?
    ensures params.Some? ==> callerParams.value == Overlay(params.value, |requests|)
  {
    all := [];
    requests := [];
    var page := 1;
    var perPage := 50;
    var current := params;
    while true
      invariant 1 <= page <= k
      invariant |requests| == page - 1
      invariant all == PagesBefore(endpoint, page)
      invariant forall p :: 1 <= p < page ==> endpoint(p) != []
      invariant forall i :: 0 <= i < |requests| ==> requests[i] == Overlay(BaseParams(params), i + 1)
      invariant page == 1 ==> current == params
      invariant page > 1 ==> current == Some(Overlay(BaseParams(params), page - 1))
      decreases k - page
    {
      if current.None? {
        current := Some(map[]);
      }
      var sent := current.value["page" := page]["per_page" := perPage];
      assert sent == Overlay(BaseParams(params), page);
      current := Some(sent);
      requests := requests + [sent];
      var results := endpoint(page);
      if results == [] {
        break;
      }
      all := all + results;
      page := page + 1;
    }
    ghost var first := FirstEmpty(endpoint, k);
    assert first == page;
    callerParams := if params.None? then None else current;
  }

  /** The client keeps the caller's map across calls; because `page` and
      `per_page` are written over on every request, a second drain that reuses
      the map the first one left behind sends exactly the same requests. */
  method FetchTwice<R>(endpoint: int -> seq<R>, params: map<string, int>, ghost k: int)
    returns (first: seq<map<string, int>>, second: seq<map<string, int>>)
    requires 1 <= k && endpoint(k) == []
    ensures first == second
    ensures |first| == FirstEmpty(endpoint, k)
  {
    var all1, all2;
    var after1, after2;
    all1, first, after1 := FetchAllPages(endpoint, Some(params), k);
    all2, second, after2 := FetchAllPages(endpoint, after1, k);
    assert |first| == |second|;
    forall i | 0 <= i < |first|
      ensures first[i] == second[i]
    {
      assert Overlay(Overlay(params, |first|), i + 1) == Overlay(params, i + 1);
    }
  }

  /** Pages of sizes 50, 50 and 23 followed by empty pages. */
  function SamplePage(p: int): seq<int> {
    if p == 1 || p == 2 then seq(50, i => i) else if p == 3 then seq(23, i => i) else []
  }

  /** The drain of that endpoint: 123 records after exactly four requests, the
      last one for page 4. */
  method SampleDrain() returns (count: int, requestCount: int, lastPage: int)
    ensures count == 123
    ensures requestCount == 4
    ensures lastPage == 4
  {
    var all, requests, after := FetchAllPages(SamplePage, None, 4);
    assert SamplePage(1) != [] && SamplePage(2) != [] && SamplePage(3) != [];
    assert |requests| == 4;
    assert all == PagesBefore(SamplePage, 4);
    count := |all|;
    requestCount := |requests|;
    lastPage := requests[|requests| - 1]["page"];
  }
}
