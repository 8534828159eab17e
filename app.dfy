// The desktop application's Go bindings: search-response shaping, the
// per-OS open command, and the indexing entry points.

module App {
  import opened Wrappers
  import opened Text
  import Documents
  import Indexer

  /** The `_rankingScore` field of a raw hit: missing, present but not a
      number, or a number. */
  datatype RawScore = Absent | Unparsable | Parsed(score: real)

  /** One raw hit from the engine: the document it decodes to, if it decodes
      at all, and its ranking-score field. */
  datatype RawHit = RawHit(decoded: Option<Documents.Document>, rankingScore: RawScore)

  /** What the engine returns for a successful query. */
  datatype EngineResult = EngineResult(hits: seq<RawHit>, query: string,
                                       processingTimeMs: int, estimatedTotalHits: int)

  /** The engine call `search.Search(query, limit)`: a result or an error
      message. */
  type Backend = (string, int) -> Result<EngineResult, string>

  /** `SearchResult` as sent to the frontend; `kind` is the JSON field `type`. */
  datatype SearchResult = SearchResult(id: string, path: string, content: string,
                                       kind: string, title: string, rankingScore: real)

  /** `SearchResponse` as sent to the frontend. */
  datatype SearchResponse = SearchResponse(hits: seq<SearchResult>, query: string, processingTimeMs: int,
                                           estimatedTotalHits: int, error: string)

  const SearchFailedPrefix: string := "Search failed: "

  /** The frontend record built from one decoded document. */
  function ToResult(doc: Documents.Document, score: RawScore): (r: SearchResult)
    ensures r.id == doc.id && r.path == doc.path && r.content == doc.content
    ensures r.kind == doc.ext && r.title == doc.name
    ensures r.rankingScore == 0.0 || score == Parsed(r.rankingScore)
  {
    SearchResult(doc.id, doc.path, doc.content, doc.ext, doc.name,
                 if score.Parsed? then score.score else 0.0)
  }

  /** The conversion loop's result: every hit that decodes, converted, in
      engine order. */
  function ConvertHits(hits: seq<RawHit>): (out: seq<SearchResult>)
    ensures |out| <= |hits|
    decreases |hits|
  {
    if hits == [] then []
    else
      var h := hits[|hits| - 1];
      ConvertHits(hits[..|hits| - 1]) + (if h.decoded.Some? then [ToResult(h.decoded.value, h.rankingScore)] else [])
  }

  /** `App.Search`. */
  method Search(backend: Backend, query: string, limit: int) returns (r: SearchResponse)
    ensures query == "" ==> r == SearchResponse([], query, 0, 0, "")
    ensures query != "" && backend(query, limit).Err? ==>
            r == SearchResponse([], query, 0, 0, SearchFailedPrefix + backend(query, limit).error)
    ensures query != "" && backend(query, limit).Ok? ==>
            var res := backend(query, limit).value;
            r == SearchResponse(ConvertHits(res.hits), res.query, res.processingTimeMs, res.estimatedTotalHits, "")
  {
    if query == "" {
      return SearchResponse([], query, 0, 0, "");
    }
    var result := backend(query, limit);
    if result.Err? {
      return SearchResponse([], query, 0, 0, SearchFailedPrefix + result.error);
    }
    var raw := result.value.hits;
    var hits: seq<SearchResult> := [];
    for i := 0 to |raw|
      invariant hits == ConvertHits(raw[..i])
    {
      assert raw[..i + 1][..i] == raw[..i];
      var hit := raw[i];
      if hit.decoded.None? {
        continue;
      }
      var doc := hit.decoded.value;
      var score := 0.0;
      if hit.rankingScore.Parsed? {
        score := hit.rankingScore.score;
      }
      hits := hits + [SearchResult(doc.id, doc.path, doc.content, doc.ext, doc.name, score)];
    }
    assert raw[..|raw|] == raw;
    r := SearchResponse(hits, result.value.query, result.value.processingTimeMs,
                        result.value.estimatedTotalHits, "");
  }

  /** A failed search always reports a non-empty error, so the frontend can
      tell it from a success. */
  lemma FailureIsReported(e: string)
    ensures SearchFailedPrefix + e != "" && SearchFailedPrefix <= SearchFailedPrefix + e
  {
  }

  /** Conversion works hit by hit: converting a concatenation concatenates
      the conversions, so backend order is kept. */
  lemma {:induction false} ConvertHitsAppend(a: seq<RawHit>, b: seq<RawHit>)
    ensures ConvertHits(a + b) == ConvertHits(a) + ConvertHits(b)
    decreases |b|
  {
    if b == [] {
      assert a + b == a;
    } else {
      var b' := b[..|b| - 1];
      var h := b[|b| - 1];
      var tail := if h.decoded.Some? then [ToResult(h.decoded.value, h.rankingScore)] else [];
      assert (a + b)[..|a + b| - 1] == a + b' && (a + b)[|a + b| - 1] == h;
      ConvertHitsAppend(a, b');
      ConcatAssoc(ConvertHits(a), ConvertHits(b'), tail);
    }
  }

  /** Exactly the hits that decode survive: the output is as long as the
      number of decodable hits. */
  function Decodable(hits: seq<RawHit>): nat
    decreases |hits|
  {
    if hits == [] then 0
    else Decodable(hits[..|hits| - 1]) + (if hits[|hits| - 1].decoded.Some? then 1 else 0)
  }

  lemma {:induction false} ConvertHitsCount(hits: seq<RawHit>)
    ensures |ConvertHits(hits)| == Decodable(hits)
    ensures Decodable(hits) == |hits| <==> forall k | 0 <= k < |hits| :: hits[k].decoded.Some?
    decreases |hits|
  {
    if hits != [] {
      var init := hits[..|hits| - 1];
      ConvertHitsCount(init);
      assert Decodable(init) <= |init| by { DecodableBound(init); }
      if forall k | 0 <= k < |init| :: init[k].decoded.Some? {
        if hits[|hits| - 1].decoded.Some? {
          forall k | 0 <= k < |hits|
            ensures hits[k].decoded.Some?
          {
            if k < |init| {
              assert hits[k] == init[k];
            }
          }
        }
      } else {
        var k :| 0 <= k < |init| && init[k].decoded.None?;
        assert hits[k] == init[k];
      }
    }
  }

  lemma {:induction false} DecodableBound(hits: seq<RawHit>)
    ensures Decodable(hits) <= |hits|
    decreases |hits|
  {
    if hits != [] {
      DecodableBound(hits[..|hits| - 1]);
    }
  }

  /** When every hit decodes, the k-th result is the k-th hit converted. */
  lemma {:induction false} AllDecodedKeepPositions(hits: seq<RawHit>)
    requires forall k | 0 <= k < |hits| :: hits[k].decoded.Some?
    ensures |ConvertHits(hits)| == |hits|
    ensures forall k | 0 <= k < |hits| ::
              ConvertHits(hits)[k] == ToResult(hits[k].decoded.value, hits[k].rankingScore)
    decreases |hits|
  {
    if hits != [] {
      var init := hits[..|hits| - 1];
      forall k | 0 <= k < |init|
        ensures init[k].decoded.Some?
      {
        assert init[k] == hits[k];
      }
      AllDecodedKeepPositions(init);
    }
  }

  /** A hit that fails to decode is dropped without affecting its
      neighbours. */
  lemma UndecodableDropped(a: seq<RawHit>, h: RawHit, b: seq<RawHit>)
    requires h.decoded.None?
    ensures ConvertHits(a + [h] + b) == ConvertHits(a) + ConvertHits(b)
  {
    ConvertHitsAppend(a + [h], b);
    ConvertHitsAppend(a, [h]);
    assert [h][..0] == [];
    assert ConvertHits([h]) == [];
    assert ConvertHits(a) + [] == ConvertHits(a);
  }

  /** The command `OpenFile` starts: a program and its arguments. */
  datatype Launch = Launch(program: string, args: seq<string>)

  /** `App.OpenFile` up to starting the process: the launcher for the
      operating system, or an error naming an unsupported one. */
  function OpenFile(path: string, goos: string): (r: Result<Launch, string>)
    ensures r.Ok? <==> goos in {"darwin", "linux", "windows"}
    ensures r.Ok? ==> |r.value.args| > 0 && r.value.args[|r.value.args| - 1] == path
    ensures r.Err? ==> r.error == "unsupported operating system: " + goos
    ensures goos == "darwin" ==> r == Ok(Launch("open", [path]))
    ensures goos == "linux" ==> r == Ok(Launch("xdg-open", [path]))
    ensures goos == "windows" ==> r == Ok(Launch("cmd", ["/c", "start", path]))
  {
    if goos == "darwin" then Ok(Launch("open", [path]))
    else if goos == "linux" then Ok(Launch("xdg-open", [path]))
    else if goos == "windows" then Ok(Launch("cmd", ["/c", "start", path]))
    else Err("unsupported operating system: " + goos)
  }

  /** The path is handed over as one argument, never split or altered. */
  lemma OpenPassesPathVerbatim(path: string, goos: string)
    requires OpenFile(path, goos).Ok?
    ensures path in OpenFile(path, goos).value.args
    ensures OpenFile(path, goos).value.program in {"open", "xdg-open", "cmd"}
  {
  }

  /** `App.IndexDirectory`: a walk with no ignore patterns, so only the fixed
      directory, dot-directory and extension rules apply. */
  method IndexDirectory(lib: Indexer.PathLib, home: Option<string>, path: string, root: Indexer.Entry, now: int)
    returns (documents: seq<Documents.Document>)
    ensures documents == Indexer.WalkTally(Indexer.WalkConfig(lib, [], now), path, root).documents
  {
    assert Indexer.ExpandAll(lib, home, []) == [];
    var fileCount;
    documents, fileCount := Indexer.IndexDirectory(lib, home, path, root, [], now);
  }
}
