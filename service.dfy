// The frontend's search service: the bridge response turned into the
// frontend's own response shape, and the health probe.

module SearchService {
  import opened Wrappers
  import App

  /** `SearchResult` of the frontend types: `title` and `_rankingScore` are
      optional there. */
  datatype Hit = Hit(id: string, path: string, content: string, kind: string,
                     title: Option<string>, rankingScore: Option<real>)

  /** `SearchResponse` of the frontend types. */
  datatype Response = Response(hits: seq<Hit>, query: string, processingTimeMs: int,
                               limit: int, offset: int, estimatedTotalHits: int)

  /** A call across the bridge: the value it resolves to, or the message it
      rejects with. */
  type Bridge<T> = Result<T, string>

  const DefaultLimit: int := 20

  /** One bridge hit in the frontend's shape. */
  function ToHit(h: App.SearchResult): (hit: Hit)
    ensures hit.title.Some? && hit.rankingScore.Some? && FromHit(hit) == h
  {
    Hit(h.id, h.path, h.content, h.kind, Some(h.title), Some(h.rankingScore))
  }

  /** The inverse of `ToHit` on the hits it produces. */
  function FromHit(h: Hit): App.SearchResult
    requires h.title.Some? && h.rankingScore.Some?
  {
    App.SearchResult(h.id, h.path, h.content, h.kind, h.title.value, h.rankingScore.value)
  }

  /** `SearchService.search`, given what the bridge call `Search(query, limit)`
      settles to; `limit` is `None` when the caller leaves it out. An `Err`
      result is the rejected promise. */
  function Search(call: (string, int) -> Bridge<App.SearchResponse>, query: string, limit: Option<int>): (r: Result<Response, string>)
    ensures var n := if limit.Some? then limit.value else DefaultLimit;
            match call(query, n)
            case Err(e) => r == Err(e)
            case Ok(resp) =>
              (resp.error != "" <==> r.Err?)
              && (r.Err? ==> r.error == resp.error)
              && (r.Ok? ==> |r.value.hits| == |resp.hits| && r.value.limit == n && r.value.offset == 0
                            && r.value.query == resp.query && r.value.processingTimeMs == resp.processingTimeMs
                            && r.value.estimatedTotalHits == resp.estimatedTotalHits)
  {
    var n := if limit.Some? then limit.value else DefaultLimit;
    match call(query, n)
    case Err(e) => Err(e)
    case Ok(resp) =>
      if resp.error != "" then Err(resp.error)
      else Ok(Response(seq(|resp.hits|, i requires 0 <= i < |resp.hits| => ToHit(resp.hits[i])),
                       resp.query, resp.processingTimeMs, n, 0, resp.estimatedTotalHits))
  }

  /** Mapping loses nothing: each hit can be mapped back to the bridge hit it
      came from, position by position. */
  lemma HitsRoundTrip(call: (string, int) -> Bridge<App.SearchResponse>, query: string, limit: Option<int>)
    requires Search(call, query, limit).Ok?
    ensures var hits := Search(call, query, limit).value.hits;
            var n := if limit.Some? then limit.value else DefaultLimit;
            (forall k | 0 <= k < |hits| :: hits[k].title.Some? && hits[k].rankingScore.Some?)
            && call(query, n).Ok?
            && seq(|hits|, k requires 0 <= k < |hits| && hits[k].title.Some? && hits[k].rankingScore.Some? => FromHit(hits[k]))
               == call(query, n).value.hits
  {
    var n := if limit.Some? then limit.value else DefaultLimit;
    var resp := call(query, n).value;
    var hits := Search(call, query, limit).value.hits;
    assert forall k | 0 <= k < |hits| :: hits[k] == ToHit(resp.hits[k]);
    var back := seq(|hits|, k requires 0 <= k < |hits| && hits[k].title.Some? && hits[k].rankingScore.Some? => FromHit(hits[k]));
    assert forall k | 0 <= k < |hits| :: back[k] == resp.hits[k];
  }

  /** The Go side's empty-query answer passes through as an empty response,
      and its failure answer always becomes a rejection. */
  lemma GoAnswersAsSeen(call: (string, int) -> Bridge<App.SearchResponse>, query: string, e: string)
    requires call(query, DefaultLimit) == Ok(App.SearchResponse([], query, 0, 0, ""))
             || call(query, DefaultLimit) == Ok(App.SearchResponse([], query, 0, 0, App.SearchFailedPrefix + e))
    ensures call(query, DefaultLimit).value.error == "" ==>
            Search(call, query, None) == Ok(Response([], query, 0, DefaultLimit, 0, 0))
    ensures call(query, DefaultLimit).value.error != "" ==>
            Search(call, query, None) == Err(App.SearchFailedPrefix + e)
  {
    App.FailureIsReported(e);
  }

  /** `SearchService.getHealth`: a rejected bridge call reads as unhealthy. */
  function GetHealth(call: Bridge<bool>): (healthy: bool)
    ensures healthy ==> call.Ok?
    ensures call.Ok? ==> healthy == call.value
  {
    match call
    case Ok(b) => b
    case Err(_) => false
  }
}
