/**
 * The voice chat endpoint (app/api/voice/chat/route.ts): the digest of the
 * author's opinions that goes into the system prompt, and the request
 * pipeline transcription -> embedding -> similarity search -> optional
 * rerank -> context -> answer -> speech -> JSON reply with citations.
 * Whisper, the embedding model, the database, Cohere, the chat model and
 * the speech synthesiser are parameters.
 */
module VoiceChat {
  import opened Wrappers
  import opened Strings
  import opened Sorting
  import opened Documents
  import KnowledgeSearch

  // ---------------------------------------------------------------- opinion digest

  const DigestLimit: nat := 2000
  const BulletLineLimit: nat := 150

  /** A line that opens or closes the frontmatter block. */
  predicate IsFence(line: string) { Trim(line) == "---" }

  /** A heading, or a short bullet line. */
  predicate IsKeyLine(line: string) {
    StartsWith(line, "##") || StartsWith(line, "###")
    || (StartsWith(Trim(line), "-") && JsLen(line) < BulletLineLimit)
  }

  /** The key lines outside frontmatter, in document order; `inFrontmatter` is the state before the first line. */
  function KeyLines(lines: seq<string>, inFrontmatter: bool): seq<string>
  {
    if lines == [] then []
    else if IsFence(lines[0]) then KeyLines(lines[1..], !inFrontmatter)
    else if inFrontmatter then KeyLines(lines[1..], inFrontmatter)
    else (if IsKeyLine(lines[0]) then [lines[0]] else []) + KeyLines(lines[1..], inFrontmatter)
  }

  function Lines(content: string): seq<string> { SplitBy(content, c => c == '\n') }

  /** The digest: the key lines joined by newlines, cut to 2000 code units. */
  function Digest(content: string): string {
    JsPrefix(Join(KeyLines(Lines(content), false), "\n"), DigestLimit)
  }

  lemma {:induction false} JsPrefixPastLimit(a: string, b: string, n: nat)
    requires JsLen(a) >= n
    ensures JsPrefix(a + b, n) == JsPrefix(a, n)
  {
    if a == [] {
      assert a + b == b;
      assert n == 0;
      if b != [] { assert Units(b[0]) > 0; }
    } else {
      assert (a + b)[0] == a[0] && (a + b)[1..] == a[1..] + b;
      if Units(a[0]) <= n {
        JsPrefixPastLimit(a[1..], b, n - Units(a[0]));
      }
    }
  }

  /** Stopping once the collected lines pass the limit gives the same digest as collecting all of them. */
  lemma {:induction false} EarlyStopSafe(collected: seq<string>, tail: seq<string>)
    requires JsLen(Join(collected, "\n")) > DigestLimit
    ensures JsPrefix(Join(collected + tail, "\n"), DigestLimit) == JsPrefix(Join(collected, "\n"), DigestLimit)
  {
    var all := collected + tail;
    assert all[..|collected|] == collected;
    JoinPrefix(all, |collected|, "\n");
    var joined := Join(collected, "\n");
    var whole := Join(all, "\n");
    assert whole == joined + whole[|joined|..];
    JsPrefixPastLimit(joined, whole[|joined|..], DigestLimit);
  }

  /** One step of `KeyLines`. */
  lemma {:induction false} KeyLinesStep(lines: seq<string>, i: nat, inFrontmatter: bool)
    requires i < |lines|
    ensures KeyLines(lines[i..], inFrontmatter) ==
      if IsFence(lines[i]) then KeyLines(lines[i + 1..], !inFrontmatter)
      else if inFrontmatter then KeyLines(lines[i + 1..], inFrontmatter)
      else (if IsKeyLine(lines[i]) then [lines[i]] else []) + KeyLines(lines[i + 1..], inFrontmatter)
  {
    assert lines[i..][0] == lines[i] && lines[i..][1..] == lines[i + 1..];
  }

  /**
   * `extractKeyOpinions`: one pass over the lines that toggles the
   * frontmatter flag on fences and stops early once the collected lines
   * exceed the limit; the early stop does not change the result.
   */
  method ExtractKeyOpinions(content: string) returns (digest: string)
    ensures digest == Digest(content)
    ensures JsLen(digest) <= DigestLimit
  {
    var lines := Lines(content);
    var keyLines: seq<string> := [];
    var inFrontmatter := false;
    var i := 0;
    while i < |lines|
      invariant 0 <= i <= |lines|
      invariant keyLines + KeyLines(lines[i..], inFrontmatter) == KeyLines(lines, false)
    {
      var line := lines[i];
      KeyLinesStep(lines, i, inFrontmatter);
      if IsFence(line) {
        inFrontmatter := !inFrontmatter;
      } else if !inFrontmatter {
        ghost var tail := KeyLines(lines[i + 1..], inFrontmatter);
        if IsKeyLine(line) {
          assert keyLines + ([line] + tail) == (keyLines + [line]) + tail;
          keyLines := keyLines + [line];
        } else {
          assert [] + tail == tail;
        }
        assert keyLines + tail == KeyLines(lines, false);
        if JsLen(Join(keyLines, "\n")) > DigestLimit {
          EarlyStopSafe(keyLines, tail);
          digest := JsPrefix(Join(keyLines, "\n"), DigestLimit);
          return;
        }
      }
      i := i + 1;
    }
    assert lines[i..] == [];
    assert KeyLines(lines[i..], inFrontmatter) == [];
    assert keyLines + [] == keyLines;
    digest := JsPrefix(Join(keyLines, "\n"), DigestLimit);
  }

  /** Only key lines of the input reach the digest, and never a fence, even though `---` looks like a bullet. */
  lemma {:induction false} OnlyKeyLinesKept(lines: seq<string>, inFrontmatter: bool)
    ensures forall l :: l in KeyLines(lines, inFrontmatter) ==> IsKeyLine(l) && !IsFence(l) && l in lines
  {
    if lines != [] {
      var next := if IsFence(lines[0]) then !inFrontmatter else inFrontmatter;
      OnlyKeyLinesKept(lines[1..], next);
      forall l | l in KeyLines(lines[1..], next) ensures l in lines {
        assert l in lines[1..];
      }
    }
  }

  lemma FenceIsFence()
    ensures IsFence("---")
  {
    TrimOfTrimmed("---");
  }

  /** Lines between an opening and a closing fence are skipped whatever they look like. */
  lemma {:induction false} FrontmatterSkipped(body: seq<string>, rest: seq<string>)
    requires forall k :: 0 <= k < |body| ==> !IsFence(body[k])
    ensures KeyLines(["---"] + body + ["---"] + rest, false) == KeyLines(rest, false)
  {
    FenceIsFence();
    var all := ["---"] + body + ["---"] + rest;
    assert all[0] == "---" && all[1..] == body + (["---"] + rest);
    SkipInside(body, ["---"] + rest);
    assert (["---"] + rest)[0] == "---" && (["---"] + rest)[1..] == rest;
  }

  lemma {:induction false} SkipInside(body: seq<string>, rest: seq<string>)
    requires forall k :: 0 <= k < |body| ==> !IsFence(body[k])
    ensures KeyLines(body + rest, true) == KeyLines(rest, true)
  {
    if body == [] {
      assert body + rest == rest;
    } else {
      assert (body + rest)[0] == body[0] && !IsFence(body[0]);
      assert (body + rest)[1..] == body[1..] + rest;
      SkipInside(body[1..], rest);
    }
  }

  // ---------------------------------------------------------------- request pipeline

  const MatchThreshold: real := 0.2
  const MatchCount: nat := 20
  const AnswerFallback: string := "죄송합니다, 답변을 생성할 수 없습니다."

  /** A value of a multipart form field. */
  datatype FormValue = Missing | Text(text: string) | Upload(name: string)

  /** The `{ data, error }` pair of the search RPC. */
  datatype SearchResponse = SearchResponse(data: Option<seq<Document>>, failed: bool)

  datatype Citation = Citation(title: string, url: string, similarity: real)

  datatype VoiceServices = VoiceServices(
    transcribe: FormValue -> Result<Field>,
    embed: string -> Result<KnowledgeSearch.Embedding>,
    search: KnowledgeSearch.SearchParams -> SearchResponse,
    reranker: Option<KnowledgeSearch.RerankRequest -> Result<seq<int>>>,
    answer: (string, string) -> Result<Field>,
    speak: string -> Result<string>)

  datatype VoiceReply =
    | Error(status: nat, error: string)
    | Reply(transcription: string, responseText: string, audio: string, citations: seq<Citation>)

  /** The reranker's input: `content_with_context || content` of each chunk, asking for at most five. */
  function RerankInput(query: string, docs: seq<Document>): KnowledgeSearch.RerankRequest {
    KnowledgeSearch.RerankRequest(
      query,
      seq(|docs|, k requires 0 <= k < |docs| => if Truthy(docs[k].contentWithContext) then docs[k].contentWithContext else docs[k].content),
      KnowledgeSearch.Min(5, |docs|))
  }

  /** `documents[i]` in JavaScript: `undefined` (`None`) outside the array. */
  function JsPick(docs: seq<Document>, idx: seq<int>): (r: seq<Option<Document>>)
    ensures |r| == |idx|
    ensures forall k :: 0 <= k < |idx| ==> (r[k].Some? <==> 0 <= idx[k] < |docs|)
    ensures forall k :: 0 <= k < |idx| ==> r[k].Some? ==> r[k].value == docs[idx[k]]
  {
    seq(|idx|, k requires 0 <= k < |idx| => if 0 <= idx[k] < |docs| then Some(docs[idx[k]]) else None)
  }

  /**
   * `rerankedDocuments`: the search data as it came (possibly missing),
   * the reranked order (entries may be `undefined`), or the first five.
   */
  function Reranked(query: string, data: Option<seq<Document>>, reranker: Option<KnowledgeSearch.RerankRequest -> Result<seq<int>>>): Option<seq<Option<Document>>> {
    match data
    case None => None
    case Some(docs) =>
      if reranker.Some? && |docs| > 1 then
        match reranker.value(RerankInput(query, docs))
        case Ok(idx) => Some(JsPick(docs, idx))
        case Failed(_) => Some(Present(Take(docs, 5)))
      else if |docs| > 5 then Some(Present(Take(docs, 5)))
      else Some(Present(docs))
  }

  function Present(docs: seq<Document>): (r: seq<Option<Document>>)
    ensures |r| == |docs| && forall k :: 0 <= k < |docs| ==> r[k] == Some(docs[k])
  {
    seq(|docs|, k requires 0 <= k < |docs| => Some(docs[k]))
  }

  predicate AllPresent(docs: seq<Option<Document>>) { forall k :: 0 <= k < |docs| ==> docs[k].Some? }

  /** One source block; note the newline that opens every block. */
  function Block(n: nat, d: Document): string {
    "\n[출처 " + NatToString(n) + "]\n제목: " + OrElse(d.title, TitleFallback) + "\n내용: " + Interpolate(d.content) + "\n---"
  }

  function Blocks(docs: seq<Document>, n: nat): (r: seq<string>)
    ensures |r| == |docs|
    ensures forall k :: 0 <= k < |docs| ==> r[k] == Block(n + k, docs[k])
  {
    if docs == [] then [] else [Block(n, docs[0])] + Blocks(docs[1..], n + 1)
  }

  function Unwrap(docs: seq<Option<Document>>): (r: seq<Document>)
    requires AllPresent(docs)
    ensures |r| == |docs| && forall k :: 0 <= k < |docs| ==> r[k] == docs[k].value
  {
    seq(|docs|, k requires 0 <= k < |docs| => docs[k].value)
  }

  /**
   * The context for the system prompt; reading the title of an `undefined`
   * entry throws a `TypeError`, which the handler turns into a 500.
   */
  function VoiceContext(reranked: Option<seq<Option<Document>>>): (r: Result<string>)
    ensures reranked.None? || reranked.value == [] ==> r == Ok(NoDocumentsMessage)
    ensures reranked.Some? && reranked.value != [] ==> (r.Ok? <==> AllPresent(reranked.value))
    ensures reranked.Some? && reranked.value != [] && AllPresent(reranked.value) ==>
      r.value == Join(Blocks(Unwrap(reranked.value), 1), "\n")
  {
    if reranked.None? || reranked.value == [] then Ok(NoDocumentsMessage)
    else if AllPresent(reranked.value) then Ok(Join(Blocks(Unwrap(reranked.value), 1), "\n"))
    else Failed("Cannot read properties of undefined (reading 'title')")
  }

  function Cite(d: Document): Citation {
    Citation(OrElse(d.title, TitleFallback), OrElse(d.url, ""), d.similarity)
  }

  function Citations(docs: seq<Document>): (r: seq<Citation>)
    ensures |r| == |docs|
    ensures forall k :: 0 <= k < |docs| ==> r[k] == Cite(docs[k])
  {
    seq(|docs|, k requires 0 <= k < |docs| => Cite(docs[k]))
  }

  function VoiceChat(audio: FormValue, svc: VoiceServices): (r: VoiceReply)
    ensures audio.Missing? || audio == Text("") ==> r == Error(400, "Audio file is required")
    ensures !audio.Missing? && audio != Text("") && svc.transcribe(audio).Ok? && !Heard(svc.transcribe(audio).value) ==>
      r == Error(400, "Transcription is empty")
    ensures !audio.Missing? && audio != Text("") && svc.transcribe(audio).Ok? && Heard(svc.transcribe(audio).value) ==>
      var message := svc.transcribe(audio).value.text;
      svc.embed(message).Ok? && svc.search(KnowledgeSearch.SearchParams(svc.embed(message).value, 0.2, 20)).failed ==>
        r == Error(500, "Document search failed")
    ensures r.Reply? ==> Trim(r.transcription) != [] && r.responseText != []
    ensures r.Reply? ==>
      && svc.transcribe(audio) == Ok(Str(r.transcription))
      && svc.embed(r.transcription).Ok?
      && var response := svc.search(KnowledgeSearch.SearchParams(svc.embed(r.transcription).value, 0.2, 20));
         var reranked := Reranked(r.transcription, response.data, svc.reranker);
         && !response.failed
         && (reranked.Some? ==> AllPresent(reranked.value) && r.citations == Citations(Unwrap(reranked.value)))
         && (reranked.None? ==> r.citations == [])
    ensures r.Error? ==> r.status == 400 || r.status == 500
  {
    if audio.Missing? || audio == Text("") then Error(400, "Audio file is required")
    else match svc.transcribe(audio)
    case Failed(_) => Error(500, "Voice chat failed")
    case Ok(text) =>
      if !Heard(text) then Error(400, "Transcription is empty")
      else
        var message := text.text;
        match svc.embed(message)
        case Failed(_) => Error(500, "Voice chat failed")
        case Ok(embedding) =>
          var response := svc.search(KnowledgeSearch.SearchParams(embedding, MatchThreshold, MatchCount));
          if response.failed then Error(500, "Document search failed")
          else
            var reranked := Reranked(message, response.data, svc.reranker);
            match VoiceContext(reranked)
            case Failed(_) => Error(500, "Voice chat failed")
            case Ok(context) =>
              match svc.answer(context, message)
              case Failed(_) => Error(500, "Voice chat failed")
              case Ok(content) =>
                var responseText := OrElse(content, AnswerFallback);
                match svc.speak(responseText)
                case Failed(_) => Error(500, "Voice chat failed")
                case Ok(audioData) =>
                  var cited := if reranked.Some? then Citations(Unwrap(reranked.value)) else [];
                  Reply(message, responseText, audioData, cited)
  }

  /** `!userMessage || !userMessage.trim()` fails: the transcription has some non-blank text. */
  predicate Heard(text: Field) { Truthy(text) && Trim(text.text) != [] }

  /** A failed search answers 500 whatever the reranker, the chat model and the speech synthesiser would do. */
  lemma SearchFailureBeforeRerank(audio: FormValue, svc: VoiceServices, other: VoiceServices)
    requires other.transcribe == svc.transcribe && other.embed == svc.embed && other.search == svc.search
    requires VoiceChat(audio, svc) == Error(500, "Document search failed")
    ensures VoiceChat(audio, other) == VoiceChat(audio, svc)
  {
  }

  /** Without a reranker the reply cites the first five chunks in search order. */
  lemma {:induction false} CitesFirstFiveWithoutReranker(query: string, docs: seq<Document>)
    ensures Reranked(query, Some(docs), None) == Some(Present(docs[..KnowledgeSearch.Min(5, |docs|)]))
  {
    if |docs| <= 5 {
      assert docs[..|docs|] == docs;
    }
  }

  /** A reranked position that names no chunk makes the whole request fail with 500. */
  lemma {:induction false} BadRerankIndexFails(query: string, docs: seq<Document>, reranker: KnowledgeSearch.RerankRequest -> Result<seq<int>>)
    requires |docs| > 1
    requires reranker(RerankInput(query, docs)).Ok?
    requires exists k :: (0 <= k < |reranker(RerankInput(query, docs)).value|
      && !(0 <= reranker(RerankInput(query, docs)).value[k] < |docs|))
    ensures VoiceContext(Reranked(query, Some(docs), Some(reranker))).Failed?
  {
    var idx := reranker(RerankInput(query, docs)).value;
    var k :| 0 <= k < |idx| && !(0 <= idx[k] < |docs|);
    var picked := JsPick(docs, idx);
    assert picked[k].None?;
    assert picked != [];
  }

  /** Reranking is asked for every chunk's text, its own or its content, and `min(5, n)` results. */
  lemma RerankAsksForAtMostFive(query: string, docs: seq<Document>)
    ensures |RerankInput(query, docs).documents| == |docs|
    ensures forall k :: 0 <= k < |docs| ==>
      RerankInput(query, docs).documents[k] == if Truthy(docs[k].contentWithContext) then docs[k].contentWithContext else docs[k].content
    ensures RerankInput(query, docs).topN == if |docs| < 5 then |docs| else 5
    ensures RerankInput(query, docs).query == query
  {
  }
}
