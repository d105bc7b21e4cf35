/** `get_logs`: session lookup, filtering, and pagination of the result. */
module Query {
  import opened Models
  import opened Filter

  const MAX_PER_PAGE: nat := 1000

  /** `filter.page.max(1)`. */
  function ClampPage(page: nat): (r: nat)
    ensures r >= 1
    ensures page >= 1 ==> r == page
    ensures page == 0 ==> r == 1
  {
    if page < 1 then 1 else page
  }

  /** `filter.per_page.min(1000)`. */
  function ClampPerPage(perPage: nat): (r: nat)
    ensures r <= MAX_PER_PAGE
    ensures perPage <= MAX_PER_PAGE ==> r == perPage
    ensures perPage >= MAX_PER_PAGE ==> r == MAX_PER_PAGE
  {
    if perPage < MAX_PER_PAGE then perPage else MAX_PER_PAGE
  }

  /** `(total + per_page - 1) / per_page`: the number of pages, rounded up.
      The source divides by `per_page`, so a page size of zero has no value
      here (the handler panics instead). */
  function TotalPages(total: nat, perPage: nat): (r: nat)
    requires perPage > 0
    ensures r * perPage >= total
    ensures r > 0 ==> (r - 1) * perPage < total
    ensures r == 0 <==> total == 0
  {
    var n := total + perPage - 1;
    var q := n / perPage;
    assert n == q * perPage + n % perPage;
    assert (q - 1) * perPage == q * perPage - perPage;
    q
  }

  /** The up to `count` entries from offset `start` on. */
  function Window<T>(s: seq<T>, start: nat, count: nat): (r: seq<T>)
    ensures |r| <= count
    ensures forall j :: 0 <= j < |r| ==> start + j < |s| && r[j] == s[start + j]
    ensures start < |s| ==> |r| == Min(count, |s| - start)
    ensures start >= |s| ==> r == []
  {
    if start < |s| then s[start..Min(start + count, |s|)] else []
  }

  /** The entries of a 1-based page: those at offsets `(page-1)*perPage` up
      to `min(page*perPage, |s|)`, exclusive; empty once the offset reaches
      the end. The source's `skip(start).take(end - start)`; the offset is
      computed without wrap-around (see `PageSliceAsWritten`). */
  function PageSlice<T>(s: seq<T>, page: nat, perPage: nat): (r: seq<T>)
    requires page >= 1
    ensures |r| <= perPage
    ensures forall j :: 0 <= j < |r| ==> (page - 1) * perPage + j < |s| && r[j] == s[(page - 1) * perPage + j]
    ensures (page - 1) * perPage < |s| ==> |r| == Min(perPage, |s| - (page - 1) * perPage)
    ensures (page - 1) * perPage >= |s| ==> r == []
  {
    Window(s, (page - 1) * perPage, perPage)
  }

  /** Pages 1 to k, concatenated. */
  function Pages<T>(s: seq<T>, perPage: nat, k: nat): seq<T>
  {
    if k == 0 then [] else Pages(s, perPage, k - 1) + PageSlice(s, k, perPage)
  }

  /** Pages 1 to k together are the first `k*perPage` entries (or all). */
  lemma {:induction false} PagesArePrefix<T>(s: seq<T>, perPage: nat, k: nat)
    requires perPage > 0
    ensures Pages(s, perPage, k) == s[..Min(k * perPage, |s|)]
  {
    if k > 0 {
      PagesArePrefix(s, perPage, k - 1);
      assert (k - 1) * perPage + perPage == k * perPage;
      var a := Min((k - 1) * perPage, |s|);
      var b := Min(k * perPage, |s|);
      assert s[..b] == s[..a] + s[a..b];
    }
  }

  /** Concatenating pages 1 to `TotalPages` reconstructs the sequence, with
      no gap and no overlap. */
  lemma PagesReconstruct<T>(s: seq<T>, perPage: nat)
    requires perPage > 0
    ensures Pages(s, perPage, TotalPages(|s|, perPage)) == s
  {
    PagesArePrefix(s, perPage, TotalPages(|s|, perPage));
  }

  /** Every page up to `TotalPages` is non-empty; every page after it is empty. */
  lemma PageEmptyIffBeyondLast<T>(s: seq<T>, page: nat, perPage: nat)
    requires page >= 1 && perPage > 0
    ensures PageSlice(s, page, perPage) == [] <==> page > TotalPages(|s|, perPage)
  {
    var n := TotalPages(|s|, perPage);
    if page > n {
      assert (page - 1) * perPage >= n * perPage;
    } else {
      assert (page - 1) * perPage <= (n - 1) * perPage;
    }
  }

  /** Release-build `usize` arithmetic: results are taken modulo 2^64
      (Dafny's `%` never yields a negative remainder, as wrap-around needs). */
  function WrapUsize(x: int): (r: U64)
    ensures 0 <= x < U64_LIMIT ==> r == x
  {
    x % U64_LIMIT
  }

  /** The page slice as the source computes it in a release build:
      `start = (page - 1) * per_page` and `start + per_page` wrap around
      modulo 2^64, `end = min(start + per_page, total)`, and `skip(start)`
      then `take(end - start)` with `end - start` wrapping as well. Past the
      end nothing is left to take, whatever the wrapped count. */
  function PageSliceAsWritten<T>(s: seq<T>, page: nat, perPage: nat): seq<T>
    requires page >= 1
  {
    var start := WrapUsize((page - 1) * perPage);
    var end := Min(WrapUsize(start + perPage), |s|);
    var count := WrapUsize(end - start);
    if start < |s| then s[start..Min(start + count, |s|)] else []
  }

  /** The two slices agree whenever the end of the page fits in 64 bits. */
  lemma PageSliceAsWrittenAgrees<T>(s: seq<T>, page: nat, perPage: nat)
    requires page >= 1
    requires page * perPage < U64_LIMIT
    ensures PageSliceAsWritten(s, page, perPage) == PageSlice(s, page, perPage)
  {
    var start := (page - 1) * perPage;
    assert start + perPage == page * perPage;
    assert WrapUsize(start) == start;
    assert WrapUsize(start + perPage) == start + perPage;
    if start < |s| {
      var end := Min(start + perPage, |s|);
      assert WrapUsize(end - start) == end - start;
    }
  }

  /** The wrap-around at work: with eight entries per page, page 2^61 + 1 lies
      far beyond the single page a one-entry result has, yet its offset wraps
      to 0 and the source returns that entry again. */
  lemma PageOffsetWraps<T>(e: T)
    ensures TotalPages(1, 8) == 1
    ensures PageSliceAsWritten([e], 0x2000_0000_0000_0001, 8) == [e]
    ensures PageSlice([e], 0x2000_0000_0000_0001, 8) == []
  {
    assert (0x2000_0000_0000_0001 - 1) * 8 == U64_LIMIT;
  }

  /** The filter a `get_logs` request describes: the deserialized fields, with
      every `categories` value of the raw query string appended in order to
      the list deserialization left empty. */
  function RequestFilter(params: QueryParams, categoryValues: seq<string>): (f: LogFilter)
    ensures f.categories == categoryValues
    ensures f == Deserialize(params).(categories := categoryValues)
  {
    var f := Deserialize(params);
    f.(categories := f.categories + categoryValues)
  }

  /** `get_logs`. `categoryValues` are the values of the `categories` keys of
      the raw query string, in order; `displayClock` renders a timestamp.
      A rejected query is a BAD_REQUEST; an unknown session a NOT_FOUND,
      reported before any filtering; a page size of zero panics; otherwise
      the response holds the requested page of the filtered entries. */
  method GetLogs(sessions: SessionTable, query: Extracted<QueryParams>, categoryValues: seq<string>,
                 rx: Regex, displayClock: U64 -> string)
    returns (r: Reply<LogResponse>)
    ensures query.Rejection? ==>
      r == Rejected(ApiError(BadRequest, "Invalid query parameters: " + query.reason))
    ensures query.Parsed? && query.params.sessionId !in sessions ==>
      r == Rejected(ApiError(NotFound, "Session not found: " + query.params.sessionId))
    ensures query.Parsed? && query.params.sessionId in sessions ==>
      var f := RequestFilter(query.params, categoryValues);
      var filtered := Filtered(sessions[f.sessionId], f, rx);
      var page := ClampPage(f.page);
      var perPage := ClampPerPage(f.perPage);
      if perPage == 0 then r == Panicked
      else
        && r.Json?
        && r.value.total == |filtered|
        && r.value.page == page
        && r.value.totalPages == TotalPages(|filtered|, perPage)
        && r.value.entries == Render(PageSlice(filtered, page, perPage), displayClock)
  {
    if query.Rejection? {
      return Rejected(ApiError(BadRequest, "Invalid query parameters: " + query.reason));
    }
    var filter := RequestFilter(query.params, categoryValues);
    if filter.sessionId !in sessions {
      return Rejected(ApiError(NotFound, "Session not found: " + filter.sessionId));
    }
    var entries := sessions[filter.sessionId];
    var filtered := FilterEntries(entries, filter, rx);
    var page := ClampPage(filter.page);
    var perPage := ClampPerPage(filter.perPage);
    var total := |filtered|;
    if perPage == 0 {
      // `(total + per_page - 1) / per_page` divides by zero
      return Panicked;
    }
    var totalPages := TotalPages(total, perPage);
    var pageEntries := PageSlice(filtered, page, perPage);
    return Json(LogResponse(Render(pageEntries, displayClock), total, page, totalPages));
  }

  /** Absent `page` and `per_page` give the first hundred filtered entries. */
  lemma DefaultPaging<T>(params: QueryParams, categoryValues: seq<string>, s: seq<T>)
    requires params.page.None? && params.perPage.None?
    ensures var f := RequestFilter(params, categoryValues);
      ClampPage(f.page) == 1 && ClampPerPage(f.perPage) == 100
      && PageSlice(s, ClampPage(f.page), ClampPerPage(f.perPage)) == s[..Min(100, |s|)]
  {
  }
}
