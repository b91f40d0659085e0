/**
 * The voice agent's `search_knowledge` tool (livekit-agent/agent.py): embed
 * the query, run the `match_documents` similarity search, optionally rerank
 * with Cohere, and format the chosen chunks as numbered source blocks.
 * The embedding model, the database and the reranker are parameters; an
 * exception from any of them is a `Failed` value carrying `str(e)`.
 */
module KnowledgeSearch {
  import opened Wrappers
  import opened Strings
  import opened Sorting
  import opened Documents

  const MatchThreshold: real := 0.2
  const MatchCount: nat := 20
  /** How many chunks survive reranking or the fallback cut. */
  const Keep: nat := 5
  const ErrorPrefix: string := "검색 중 오류가 발생했습니다: "

  type Embedding = seq<real>

  datatype SearchParams = SearchParams(embedding: Embedding, threshold: real, count: nat)

  datatype RerankRequest = RerankRequest(query: string, documents: seq<Field>, topN: nat)

  /**
   * The external services: the embedding call, the search RPC (its `data`,
   * `None` when the response carries none), and the Cohere client when an
   * API key is configured (the indices of its ranked results).
   */
  datatype Services = Services(
    embed: string -> Result<Embedding>,
    search: SearchParams -> Result<Option<seq<Document>>>,
    reranker: Option<RerankRequest -> Result<seq<int>>>)

  /** What the tool returns, together with the calls it made on the way. */
  datatype Run = Run(output: string, searched: Option<SearchParams>, reranked: Option<RerankRequest>)

  function Min(a: nat, b: nat): nat { if a <= b then a else b }

  /** `documents[i]` with Python's indexing: negative indices count from the end, others raise `IndexError`. */
  function PyIndex(docs: seq<Document>, i: int): (r: Result<Document>)
    ensures r.Ok? <==> -|docs| <= i < |docs|
    ensures r.Ok? ==> r.value in docs
  {
    if 0 <= i < |docs| then Ok(docs[i])
    else if -|docs| <= i < 0 then Ok(docs[|docs| + i])
    else Failed("list index out of range")
  }

  /** `[documents[r.index] for r in results]`: the first bad index raises. */
  function PickAll(docs: seq<Document>, idx: seq<int>): (r: Result<seq<Document>>)
    ensures r.Ok? <==> forall k :: 0 <= k < |idx| ==> -|docs| <= idx[k] < |docs|
    ensures r.Ok? ==> |r.value| == |idx| && forall k :: 0 <= k < |idx| ==> r.value[k] == PyIndex(docs, idx[k]).value
  {
    if idx == [] then Ok([])
    else match (PyIndex(docs, idx[0]), PickAll(docs, idx[1..]))
      case (Ok(d), Ok(ds)) => Ok([d] + ds)
      case (Failed(e), _) => Failed(e)
      case (_, Failed(e)) => Failed(e)
  }

  /** The reranker's input: each chunk's content (`''` when the key is missing), asking for at most five. */
  function RerankInput(query: string, docs: seq<Document>): RerankRequest {
    RerankRequest(query, seq(|docs|, k requires 0 <= k < |docs| => PyGet(docs[k].content, "")), Min(Keep, |docs|))
  }

  /** The chunks that reach the context: the reranked order, or the first five when reranking is off or fails. */
  function Selected(query: string, docs: seq<Document>, reranker: Option<RerankRequest -> Result<seq<int>>>): seq<Document> {
    if reranker.Some? && |docs| > 1 then
      match reranker.value(RerankInput(query, docs))
      case Ok(idx) => (if PickAll(docs, idx).Ok? then PickAll(docs, idx).value else Take(docs, Keep))
      case Failed(_) => Take(docs, Keep)
    else Take(docs, Keep)
  }

  /** One source block of the context. */
  function Block(n: nat, d: Document): string {
    "[출처 " + NatToString(n) + "]\n제목: " + PyStr(PyGet(d.title, TitleFallback))
    + "\n내용: " + PyStr(PyGet(d.content, "")) + "\n---"
  }

  /** The blocks of `docs`, numbered consecutively from `n` in list order. */
  function Blocks(docs: seq<Document>, n: nat): (r: seq<string>)
    ensures |r| == |docs|
    ensures forall k :: 0 <= k < |docs| ==> r[k] == Block(n + k, docs[k])
  {
    if docs == [] then []
    else
      var rest := Blocks(docs[1..], n + 1);
      assert forall k :: 1 <= k < |docs| ==> rest[k - 1] == Block(n + k, docs[k]) by {
        forall k | 1 <= k < |docs|
          ensures rest[k - 1] == Block(n + k, docs[k])
        {
          assert docs[1..][k - 1] == docs[k];
          assert (n + 1) + (k - 1) == n + k;
        }
      }
      [Block(n, docs[0])] + rest
  }

  function Context(docs: seq<Document>): string { Join(Blocks(docs, 1), "\n") }

  function SearchKnowledge(query: string, svc: Services): (r: Run)
    // the search runs only after the query was embedded, with the fixed threshold and count
    ensures r.searched.Some? <==> svc.embed(query).Ok?
    ensures r.searched.Some? ==> r.searched.value == SearchParams(svc.embed(query).value, MatchThreshold, MatchCount)
    // a failure of the embedding or of the search is reported, not raised
    ensures svc.embed(query).Failed? ==> r.output == ErrorPrefix + svc.embed(query).message
    ensures r.searched.Some? && svc.search(r.searched.value).Failed? ==>
      r.output == ErrorPrefix + svc.search(r.searched.value).message && r.reranked.None?
  {
    match svc.embed(query)
    case Failed(e) => Run(ErrorPrefix + e, None, None)
    case Ok(embedding) =>
      var params := SearchParams(embedding, MatchThreshold, MatchCount);
      match svc.search(params)
      case Failed(e) => Run(ErrorPrefix + e, Some(params), None)
      case Ok(data) =>
        var docs := if data.Some? then data.value else [];
        if docs == [] then Run(NoDocumentsMessage, Some(params), None)
        else
          var rerank := if svc.reranker.Some? && |docs| > 1 then Some(RerankInput(query, docs)) else None;
          Run(Context(Selected(query, docs, svc.reranker)), Some(params), rerank)
  }

  /** The documents the search found for this query (empty when `data` is missing). */
  function Found(query: string, svc: Services): seq<Document>
    requires svc.embed(query).Ok?
    requires svc.search(SearchParams(svc.embed(query).value, MatchThreshold, MatchCount)).Ok?
  {
    var data := svc.search(SearchParams(svc.embed(query).value, MatchThreshold, MatchCount)).value;
    if data.Some? then data.value else []
  }

  /** With nothing found the tool says so, and neither reranks nor formats. */
  lemma NothingFound(query: string, svc: Services)
    requires svc.embed(query).Ok?
    requires svc.search(SearchParams(svc.embed(query).value, MatchThreshold, MatchCount)).Ok?
    requires Found(query, svc) == []
    ensures SearchKnowledge(query, svc).output == NoDocumentsMessage
    ensures SearchKnowledge(query, svc).reranked.None?
  {
  }

  /**
   * With documents found, the reranker is consulted exactly when it is
   * configured and there are at least two, with every chunk's content and
   * `top_n = min(5, len(documents))`; the output is the numbered context of
   * the selected chunks.
   */
  lemma FoundDocuments(query: string, svc: Services)
    requires svc.embed(query).Ok?
    requires svc.search(SearchParams(svc.embed(query).value, MatchThreshold, MatchCount)).Ok?
    requires Found(query, svc) != []
    ensures var docs := Found(query, svc);
      && (SearchKnowledge(query, svc).reranked.Some? <==> svc.reranker.Some? && |docs| >= 2)
      && (SearchKnowledge(query, svc).reranked.Some? ==>
            SearchKnowledge(query, svc).reranked.value.topN == Min(Keep, |docs|)
            && SearchKnowledge(query, svc).reranked.value.query == query
            && |SearchKnowledge(query, svc).reranked.value.documents| == |docs|
            && forall k :: 0 <= k < |docs| ==> SearchKnowledge(query, svc).reranked.value.documents[k] == PyGet(docs[k].content, ""))
      && SearchKnowledge(query, svc).output == Context(Selected(query, docs, svc.reranker))
  {
  }

  /**
   * When the reranker raises, or names a position outside the list, the
   * exception is caught and the first five chunks are used, in search order.
   */
  lemma RerankFallback(query: string, docs: seq<Document>, reranker: RerankRequest -> Result<seq<int>>)
    requires |docs| > 1
    requires reranker(RerankInput(query, docs)).Failed?
      || exists k :: 0 <= k < |reranker(RerankInput(query, docs)).value| &&
           !(-|docs| <= reranker(RerankInput(query, docs)).value[k] < |docs|)
    ensures Selected(query, docs, Some(reranker)) == docs[..Min(Keep, |docs|)]
  {
  }

  /** A reranking that names only positions of the list selects those chunks, in its order. */
  lemma RerankedOrder(query: string, docs: seq<Document>, reranker: RerankRequest -> Result<seq<int>>)
    requires |docs| > 1 && reranker(RerankInput(query, docs)).Ok?
    requires forall k :: 0 <= k < |reranker(RerankInput(query, docs)).value| ==>
      -|docs| <= reranker(RerankInput(query, docs)).value[k] < |docs|
    ensures var idx := reranker(RerankInput(query, docs)).value;
      |Selected(query, docs, Some(reranker))| == |idx|
      && forall k :: 0 <= k < |idx| ==> Selected(query, docs, Some(reranker))[k] == PyIndex(docs, idx[k]).value
  {
  }

  /** Every selected chunk is one the search returned. */
  lemma SelectedFromFound(query: string, docs: seq<Document>, reranker: Option<RerankRequest -> Result<seq<int>>>)
    ensures forall d :: d in Selected(query, docs, reranker) ==> d in docs
  {
    var s := Selected(query, docs, reranker);
    forall d | d in s
      ensures d in docs
    {
      var k :| 0 <= k < |s| && s[k] == d;
      if reranker.Some? && |docs| > 1 && reranker.value(RerankInput(query, docs)).Ok?
         && PickAll(docs, reranker.value(RerankInput(query, docs)).value).Ok? {
        var idx := reranker.value(RerankInput(query, docs)).value;
        assert s[k] == PyIndex(docs, idx[k]).value;
      } else {
        assert s == Take(docs, Keep);
      }
    }
  }

  /** Without a reranker (or with one document) the context holds the first five chunks, in search order. */
  lemma WithoutRerankFirstFive(query: string, docs: seq<Document>, reranker: Option<RerankRequest -> Result<seq<int>>>)
    requires reranker.None? || |docs| <= 1
    ensures Selected(query, docs, reranker) == docs[..Min(Keep, |docs|)]
  {
  }

  /** A reranker that honours `top_n` never lets more than five chunks through. */
  lemma AtMostFiveSources(query: string, docs: seq<Document>, reranker: Option<RerankRequest -> Result<seq<int>>>)
    requires reranker.Some? ==> forall q :: reranker.value(q).Ok? ==> |reranker.value(q).value| <= q.topN
    ensures |Selected(query, docs, reranker)| <= Keep
  {
  }
}
