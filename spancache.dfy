/**
 * `get_cached_spans` with the module-level `_cache`: the parsed spans are
 * kept for `CACHE_TTL_SECONDS`, and the last fetch's diagnostics are
 * recorded. Time is whole seconds; the fetch's outcome is an input.
 */
module SpanCache {
  import opened Wrappers
  import opened Calendar
  import opened Aggregator

  const CacheTtlSeconds := 180

  /**
   * What `fetch_tribute_html()` returns (html, error, status, final URL),
   * together with the headers the HTML parser selects from that html.
   */
  datatype FetchResult = FetchResult(
    html: Option<string>,
    error: Option<string>,
    status: Option<int>,
    url: Option<string>,
    headers: seq<Header>)

  /** The fields of `_cache`. */
  datatype CacheState = CacheState(
    fetchedAt: Option<int>,
    spans: Option<map<string, Span>>,
    fetchError: Option<string>,
    fetchStatus: Option<int>,
    fetchUrl: Option<string>,
    htmlLen: Option<int>)

  /** `_cache` as the process starts. */
  const Initial := CacheState(None, None, None, None, None, None)

  /** The pair `(spans, error)` the function returns. */
  datatype Reply = Reply(spans: Option<map<string, Span>>, error: Option<string>)

  /** `_cache["fetched_at"] and _cache["spans"]` and an age under the TTL. */
  predicate IsFresh(s: CacheState, now: int)
  {
    s.fetchedAt.Some? && s.spans.Some? && |s.spans.value| > 0 && now - s.fetchedAt.value < CacheTtlSeconds
  }

  /** `html` is truthy. */
  predicate HasHtml(f: FetchResult)
  {
    f.html.Some? && f.html.value != ""
  }

  /** `err or "Fetch failed"`. */
  function FailureMessage(err: Option<string>): string
  {
    if err.Some? && err.value != "" then err.value else "Fetch failed"
  }

  /** One call: the new `_cache` and the reply. */
  function Refresh(s: CacheState, now: int, f: FetchResult, today: Date): (CacheState, Reply)
    requires ValidDate(today)
  {
    if IsFresh(s, now) then (s, Reply(s.spans, None))
    else
      var t := s.(fetchedAt := Some(now), fetchError := f.error, fetchStatus := f.status, fetchUrl := f.url,
                  htmlLen := Some(if HasHtml(f) then |f.html.value| else 0));
      if !HasHtml(f) then (t, Reply(None, Some(FailureMessage(f.error))))
      else
        var spans := Aggregate(f.headers, LabelParser(today));
        (t.(spans := Some(spans)), Reply(Some(spans), None))
  }

  /** A fresh cache answers from memory: state and reply do not depend on the fetch. */
  lemma FreshIgnoresFetch(s: CacheState, now: int, f: FetchResult, g: FetchResult, today: Date)
    requires ValidDate(today) && IsFresh(s, now)
    ensures Refresh(s, now, f, today) == Refresh(s, now, g, today) == (s, Reply(s.spans, None))
  {
  }

  /** A cache that is not fresh fetches: the attempt's time and diagnostics are recorded whatever its outcome. */
  lemma StaleFetches(s: CacheState, now: int, f: FetchResult, today: Date)
    requires ValidDate(today) && !IsFresh(s, now)
    ensures var t := Refresh(s, now, f, today).0;
      && t.fetchedAt == Some(now) && t.fetchError == f.error && t.fetchStatus == f.status && t.fetchUrl == f.url
      && t.htmlLen == Some(if HasHtml(f) then |f.html.value| else 0)
  {
  }

  /** A failed fetch reports its error and leaves the stored spans as they were. */
  lemma FailureKeepsSpans(s: CacheState, now: int, f: FetchResult, today: Date)
    requires ValidDate(today) && !IsFresh(s, now) && !HasHtml(f)
    ensures Refresh(s, now, f, today).0.spans == s.spans
    ensures Refresh(s, now, f, today).1 == Reply(None, Some(FailureMessage(f.error)))
    ensures FailureMessage(f.error) != ""
  {
  }

  /** A successful fetch replaces the spans with the parse of the page and returns them without error. */
  lemma SuccessReplacesSpans(s: CacheState, now: int, f: FetchResult, today: Date)
    requires ValidDate(today) && !IsFresh(s, now) && HasHtml(f)
    ensures Refresh(s, now, f, today).0.spans == Some(Aggregate(f.headers, LabelParser(today)))
    ensures Refresh(s, now, f, today).1 == Reply(Some(Aggregate(f.headers, LabelParser(today))), None)
  {
  }

  /** Whatever is served without fetching is a non-empty mapping: an empty parse is never served from memory. */
  lemma CachedReplyIsNonEmpty(s: CacheState, now: int, f: FetchResult, today: Date)
    requires ValidDate(today) && IsFresh(s, now)
    ensures Refresh(s, now, f, today).1.spans.Some? && |Refresh(s, now, f, today).1.spans.value| > 0
  {
  }

  /**
   * Two calls less than the TTL apart after a fetch that produced spans:
   * the second makes no use of its fetch, returns the same reply and
   * leaves the state as the first left it.
   */
  lemma SecondCallWithinTtl(s: CacheState, t1: int, f1: FetchResult, t2: int, f2: FetchResult, today: Date)
    requires ValidDate(today) && !IsFresh(s, t1) && HasHtml(f1) && |Aggregate(f1.headers, LabelParser(today))| > 0
    requires t2 - t1 < CacheTtlSeconds
    ensures var (s1, r1) := Refresh(s, t1, f1, today);
      Refresh(s1, t2, f2, today) == (s1, r1)
  {
  }

  /**
   * A failed fetch also stamps `fetched_at`, so spans stored before it are
   * served again, without a fetch, for up to the TTL after the failure.
   */
  lemma FailureRenewsStoredSpans(s: CacheState, t1: int, f1: FetchResult, t2: int, f2: FetchResult, today: Date)
    requires ValidDate(today) && !IsFresh(s, t1) && !HasHtml(f1)
    requires s.spans.Some? && |s.spans.value| > 0
    requires t2 - t1 < CacheTtlSeconds
    ensures Refresh(Refresh(s, t1, f1, today).0, t2, f2, today).1 == Reply(s.spans, None)
  {
  }

  /** The `_cache` object and the function that reads and refreshes it. */
  class Cache {
    var fetchedAt: Option<int>
    var spans: Option<map<string, Span>>
    var fetchError: Option<string>
    var fetchStatus: Option<int>
    var fetchUrl: Option<string>
    var htmlLen: Option<int>

    function State(): CacheState
      reads this
    {
      CacheState(fetchedAt, spans, fetchError, fetchStatus, fetchUrl, htmlLen)
    }

    constructor ()
      ensures State() == Initial
    {
      fetchedAt, spans, fetchError, fetchStatus, fetchUrl, htmlLen := None, None, None, None, None, None;
    }

    /** `get_cached_spans()` at time `now`, with `fetch` standing for what the fetcher would return. */
    method GetCachedSpans(now: int, fetch: FetchResult, today: Date) returns (result: Option<map<string, Span>>, err: Option<string>)
      requires ValidDate(today)
      modifies this
      ensures (State(), Reply(result, err)) == Refresh(old(State()), now, fetch, today)
    {
      if fetchedAt.Some? && spans.Some? && |spans.value| > 0 {
        var age := now - fetchedAt.value;
        if age < CacheTtlSeconds {
          return spans, None;
        }
      }
      fetchedAt := Some(now);
      fetchError := fetch.error;
      fetchStatus := fetch.status;
      fetchUrl := fetch.url;
      htmlLen := Some(if HasHtml(fetch) then |fetch.html.value| else 0);
      if !HasHtml(fetch) {
        return None, Some(FailureMessage(fetch.error));
      }
      var parsed := ParseSchedule(fetch.headers, today);
      spans := Some(parsed);
      return spans, None;
    }
  }
}
