/**
 * The batch summary endpoint (app/api/generate-batch-summaries/route.ts):
 * all articles of a request are summarised by one chat completion, whose
 * reply is cut at `---ARTICLE_<n>---` markers; the non-blank pieces are
 * handed to the articles by position. The completion service is a
 * parameter; the clock is the `now` parameter.
 */
module BatchSummaries {
  import opened Wrappers
  import opened Strings
  import opened Documents
  import opened Sorting
  import Scan
  import Posts

  /** The fields of a request article the endpoint reads. */
  datatype BatchArticle = BatchArticle(
    id: string,
    title: string,
    description: Field,
    content: Field,
    source: Field,
    category: Field,
    keywords: Option<seq<string>>)

  /** The parsed request body; `articles` is `None` when it is missing, falsy or not an array. */
  datatype Body = Body(systemPrompt: Field, articles: Option<seq<BatchArticle>>)

  // ---------------------------------------------------------------- the completion request

  const DefaultSystemPrompt: string :=
    "당신은 세상에서 가장 빠르고 양질의 뉴스를 일반인들에게 전달하는 저널리스트입니다.\n\n" +
    "다음 구조로 3-5줄의 간결한 요약을 생성하세요:\n\n" +
    "1. 첫 문장을 간결하고 직설적으로 작성합니다.\n" +
    "2. 핵심 사실의 힘을 더하기 위해 구체적인 사실/숫자를 포함합니다.\n" +
    "3. 과하게 과장하지 않습니다.\n" +
    "4. 마무리는, 그래서 이 사실이 왜 중요한지 설명하는 문장으로 마무리합니다."

  /** `article.keywords?.join(', ') || ''`. */
  function KeywordLine(keywords: Option<seq<string>>): string {
    if keywords.Some? then Join(keywords.value, ", ") else ""
  }

  /** The block of one article in the user prompt; `index` counts from 0. */
  function ArticleBlock(a: BatchArticle, index: nat): string {
    "\n--- ARTICLE " + NatToString(index + 1) + " ---\n" +
    "ID: " + a.id + "\n" +
    "제목: " + a.title + "\n" +
    "출처: " + OrElse(a.source, "알 수 없음") + "\n" +
    "카테고리: " + OrElse(a.category, "일반") + "\n" +
    "키워드: " + KeywordLine(a.keywords) + "\n\n" +
    "내용:\n" + OrElse(a.content, OrElse(a.description, "")) + "\n"
  }

  /** The blocks of all articles, in order. */
  function Blocks(articles: seq<BatchArticle>): (r: seq<string>)
    ensures |r| == |articles|
    ensures forall i :: 0 <= i < |r| ==> r[i] == ArticleBlock(articles[i], i)
  {
    seq(|articles|, i requires 0 <= i < |articles| => ArticleBlock(articles[i], i))
  }

  /** The marker numbers `1 … n` as the prompt lists them. */
  function Numbers(n: nat): (r: seq<string>)
    ensures |r| == n
    ensures forall i :: 0 <= i < n ==> r[i] == NatToString(i + 1)
  {
    seq(n, i requires 0 <= i < n => NatToString(i + 1))
  }

  /** The opening of `batchPrompt`: the count and the markers to use. */
  function PromptIntro(n: nat): string {
    "다음 " + NatToString(n) + "개의 뉴스 기사를 각각 요약해주세요. 각 요약은 \"---ARTICLE_" +
    Join(Numbers(n), "---ARTICLE_") + "---\" 형식으로 구분해주세요.\n\n"
  }

  /** The closing of `batchPrompt`: the answer format. */
  const PromptOutro: string :=
    "\n\n각 기사를 주어진 지침에 따라 요약하고, 다음 형식으로 응답해주세요:\n\n" +
    "---ARTICLE_1---\n[첫 번째 기사 요약]\n\n---ARTICLE_2---\n[두 번째 기사 요약]\n\n..."

  /** `batchPrompt`. */
  function BatchPrompt(articles: seq<BatchArticle>): string {
    PromptIntro(|articles|) + Join(Blocks(articles), "\n") + PromptOutro
  }

  /** A piece of a joined list occurs in the joined text. */
  lemma {:induction false} JoinHasPiece(parts: seq<string>, k: nat, sep: string)
    requires k < |parts|
    ensures Contains(Join(parts, sep), parts[k])
    decreases k
  {
    if k == 0 {
      assert OccursAt(Join(parts, sep), parts[0], 0);
    } else {
      JoinHasPiece(parts[1..], k - 1, sep);
      ContainsInRight(parts[0] + sep, Join(parts[1..], sep), parts[k]);
    }
  }

  /** Every article's block, with its id, is part of the prompt. */
  lemma PromptListsArticles(articles: seq<BatchArticle>, i: nat)
    requires i < |articles|
    ensures Contains(BatchPrompt(articles), ArticleBlock(articles[i], i))
  {
    var body := Join(Blocks(articles), "\n");
    JoinHasPiece(Blocks(articles), i, "\n");
    ContainsInRight(PromptIntro(|articles|), body, ArticleBlock(articles[i], i));
    ContainsInLeft(PromptIntro(|articles|) + body, PromptOutro, ArticleBlock(articles[i], i));
  }

  /** The chat completion request: system prompt, user prompt and the token budget. */
  datatype ChatRequest = ChatRequest(system: string, user: string, maxTokens: nat)

  /** The request the endpoint sends for a non-empty list. */
  function RequestFor(systemPrompt: Field, articles: seq<BatchArticle>): (q: ChatRequest)
    ensures q.maxTokens == 500 * |articles|
    ensures Truthy(systemPrompt) ==> q.system == systemPrompt.text
    ensures !Truthy(systemPrompt) ==> q.system == DefaultSystemPrompt
  {
    ChatRequest(OrElse(systemPrompt, DefaultSystemPrompt), BatchPrompt(articles), 500 * |articles|)
  }

  // ---------------------------------------------------------------- cutting the reply

  const Head: string := "---ARTICLE_"

  /** Length of the match of `/---ARTICLE_\d+---/` at the start of `t`, 0 when there is none. */
  function MarkerLen(t: string): nat {
    if StartsWith(t, Head) then
      var digits := Scan.RunLen(t, IsDigit, 11);
      if digits > 0 && StartsWith(t[11 + digits..], "---") then 14 + digits else 0
    else 0
  }

  /** The marker pattern as a matcher: it reads only the text from `i` on. */
  function ArticleMatcher(s: string, i: nat): nat {
    if i <= |s| then MarkerLen(s[i..]) else 0
  }

  /** `batchSummary.split(/---ARTICLE_\d+---/)`. */
  function Pieces(reply: string): seq<string> {
    Scan.Split(reply, ArticleMatcher)
  }

  /** `s => s.trim()` as a filter. */
  predicate NonBlank(s: string) { Trim(s) != [] }

  /** `summaryParts`: the non-blank pieces, in order. */
  function Segments(reply: string): (r: seq<string>)
    ensures forall k :: 0 <= k < |r| ==> NonBlank(r[k]) && r[k] in Pieces(reply)
    ensures forall p :: p in Pieces(reply) && NonBlank(p) ==> p in r
  {
    Filter(Pieces(reply), NonBlank)
  }

  /** The marker a well-behaved reply puts before a summary. */
  function Marker(n: nat): string { Head + NatToString(n) + "---" }

  /** One summary of a reply under the number its marker carries. */
  datatype Section = Section(number: nat, text: string)

  /** A reply made of a preamble and marked sections. */
  function Reply(preamble: string, sections: seq<Section>): string
    decreases |sections|
  {
    if sections == [] then preamble
    else preamble + Marker(sections[0].number) + Reply(sections[0].text, sections[1..])
  }

  function Texts(sections: seq<Section>): (r: seq<string>)
    ensures |r| == |sections|
    ensures forall k :: 0 <= k < |r| ==> r[k] == sections[k].text
  {
    seq(|sections|, k requires 0 <= k < |sections| => sections[k].text)
  }

  /** A text in which the marker's fixed head never occurs. */
  predicate MarkerFree(t: string) { !Contains(t, Head) }

  /** The whole marker matches, whatever follows it, digits included. */
  lemma MarkerMatches(n: nat, after: string)
    ensures MarkerLen(Marker(n) + after) == |Marker(n)|
  {
    var d := NatToString(n);
    var t := Marker(n) + after;
    assert t == Head + (d + ("---" + after));
    assert t[..11] == Head;
    assert forall k :: 0 <= k < |d| ==> t[11 + k] == d[k];
    assert t[11 + |d|] == '-';
    Scan.RunLenOver(t, IsDigit, 11, |d|);
    assert t[11 + |d|..][..3] == "---";
  }

  /** No match starts inside a marker-free text that ends the reply or is followed by a marker. */
  lemma NoMatchAt(t: string, rest: string, p: nat)
    requires MarkerFree(t) && p < |t|
    requires rest == [] || StartsWith(rest, "---A")
    ensures ArticleMatcher(t + rest, p) == 0
  {
    var s := t + rest;
    var u := s[p..];
    if p + 11 <= |t| {
      assert !OccursAt(t, Head, p);
      assert u[..11] == t[p..p + 11];
    } else if |u| >= 11 {
      var k := |t| - p;
      assert u[k] == rest[0] == '-';
      if k < 3 {
        assert u[3] == rest[3 - k] == '-';
      }
    }
    assert !StartsWith(u, Head);
  }

  /** The marker matcher reads only the text from its index on. */
  lemma MatcherIsLocal(x: string, y: string)
    ensures forall p :: 0 <= p <= |y| ==> ArticleMatcher(x + y, |x| + p) == ArticleMatcher(y, p)
  {
    forall p | 0 <= p <= |y|
      ensures ArticleMatcher(x + y, |x| + p) == ArticleMatcher(y, p)
    {
      assert (x + y)[|x| + p..] == y[p..];
    }
  }

  /** Splitting with a matcher that reads only what follows its index does not look at the text before its starting point. */
  lemma {:induction false} SplitShift(x: string, y: string, m: Scan.Matcher, a: nat, b: nat)
    requires a <= b <= |y|
    requires forall p :: 0 <= p <= |y| ==> m(x + y, |x| + p) == m(y, p)
    ensures Scan.SplitFrom(x + y, m, |x| + a, |x| + b) == Scan.SplitFrom(y, m, a, b)
    decreases |y| - b
  {
    var s := x + y;
    assert m(s, |x| + b) == m(y, b);
    if b == |y| {
      assert s[|x| + a..] == y[a..];
    } else if Scan.MatchAt(y, m, b) {
      assert s[|x| + a..|x| + b] == y[a..b];
      SplitShift(x, y, m, b + m(y, b), b + m(y, b));
    } else {
      SplitShift(x, y, m, a, b + 1);
    }
  }

  /** A stretch without matches is passed over. */
  lemma {:induction false} SplitSkip(s: string, m: Scan.Matcher, start: nat, i: nat, j: nat)
    requires start <= i <= j <= |s|
    requires forall p :: i <= p < j ==> !Scan.MatchAt(s, m, p)
    ensures Scan.SplitFrom(s, m, start, i) == Scan.SplitFrom(s, m, start, j)
    decreases j - i
  {
    if i < j {
      SplitSkip(s, m, start, i + 1, j);
    }
  }

  /** A marker-free text has no match and is one piece. */
  lemma PiecesOfFree(t: string)
    requires MarkerFree(t)
    ensures Pieces(t) == [t]
  {
    forall p | 0 <= p < |t|
      ensures !Scan.MatchAt(t, ArticleMatcher, p)
    {
      NoMatchAt(t, [], p);
      assert t + [] == t;
    }
    SplitSkip(t, ArticleMatcher, 0, 0, |t|);
  }

  /** No match starts inside a marker-free text followed by something that starts like a marker. */
  lemma NoMatchBefore(pre: string, mid: string, tail: string)
    requires MarkerFree(pre) && StartsWith(mid, "---A")
    ensures forall p :: 0 <= p < |pre| ==> !Scan.MatchAt(pre + mid + tail, ArticleMatcher, p)
  {
    var rest := mid + tail;
    assert rest[..4] == mid[..4];
    assert pre + mid + tail == pre + rest;
    forall p | 0 <= p < |pre|
      ensures !Scan.MatchAt(pre + rest, ArticleMatcher, p)
    {
      NoMatchAt(pre, rest, p);
    }
  }

  /** A marker after a text matches where it stands. */
  lemma MarkerMatchesAt(pre: string, mid: string, tail: string)
    requires MarkerLen(mid + tail) == |mid|
    ensures ArticleMatcher(pre + mid + tail, |pre|) == |mid|
  {
    assert (pre + mid + tail)[|pre|..] == mid + tail;
  }

  /**
   * A text without matches, a match, and a rest the matcher reads on its own:
   * the text is the first piece and the rest is cut as if it stood alone.
   */
  lemma SplitAtFirstMatch(pre: string, mid: string, tail: string, m: Scan.Matcher)
    requires mid != [] && m(pre + mid + tail, |pre|) == |mid|
    requires forall p :: 0 <= p < |pre| ==> !Scan.MatchAt(pre + mid + tail, m, p)
    requires forall p :: 0 <= p <= |tail| ==> m(pre + mid + tail, |pre + mid| + p) == m(tail, p)
    ensures Scan.Split(pre + mid + tail, m) == [pre] + Scan.Split(tail, m)
  {
    var s := pre + mid + tail;
    SplitSkip(s, m, 0, 0, |pre|);
    assert s[..|pre|] == pre;
    assert Scan.Split(s, m) == [pre] + Scan.SplitFrom(s, m, |pre + mid|, |pre + mid|);
    SplitShift(pre + mid, tail, m, 0, 0);
  }

  /** What the marker matcher does around a marker that follows a marker-free text. */
  lemma MarkerStep(pre: string, mid: string, tail: string)
    requires MarkerFree(pre) && StartsWith(mid, "---A") && MarkerLen(mid + tail) == |mid|
    ensures mid != [] && ArticleMatcher(pre + mid + tail, |pre|) == |mid|
    ensures forall p :: 0 <= p < |pre| ==> !Scan.MatchAt(pre + mid + tail, ArticleMatcher, p)
    ensures forall p :: 0 <= p <= |tail| ==>
      ArticleMatcher(pre + mid + tail, |pre + mid| + p) == ArticleMatcher(tail, p)
  {
    NoMatchBefore(pre, mid, tail);
    MarkerMatchesAt(pre, mid, tail);
    MatcherIsLocal(pre + mid, tail);
  }

  /** A marker-free text, a marker and the rest: the text is the first piece and the rest is cut on its own. */
  lemma PiecesStep(pre: string, n: nat, tail: string)
    requires MarkerFree(pre)
    ensures Pieces(pre + Marker(n) + tail) == [pre] + Pieces(tail)
  {
    var mid := Marker(n);
    MarkerMatches(n, tail);
    assert mid[..4] == "---A";
    MarkerStep(pre, mid, tail);
    SplitAtFirstMatch(pre, mid, tail, ArticleMatcher);
  }

  /** A reply cut at its markers gives back the preamble and the section texts, whatever numbers the markers carry. */
  lemma {:induction false} PiecesOfReply(preamble: string, sections: seq<Section>)
    requires MarkerFree(preamble)
    requires forall k :: 0 <= k < |sections| ==> MarkerFree(sections[k].text)
    ensures Pieces(Reply(preamble, sections)) == [preamble] + Texts(sections)
    decreases |sections|
  {
    if sections == [] {
      PiecesOfFree(preamble);
    } else {
      PiecesStep(preamble, sections[0].number, Reply(sections[0].text, sections[1..]));
      PiecesOfReply(sections[0].text, sections[1..]);
      assert Texts(sections) == [sections[0].text] + Texts(sections[1..]);
    }
  }

  /** With a blank preamble and non-blank sections, the segments are exactly the section texts. */
  lemma SegmentsOfReply(preamble: string, sections: seq<Section>)
    requires MarkerFree(preamble) && !NonBlank(preamble)
    requires forall k :: 0 <= k < |sections| ==> MarkerFree(sections[k].text) && NonBlank(sections[k].text)
    ensures Segments(Reply(preamble, sections)) == Texts(sections)
  {
    PiecesOfReply(preamble, sections);
    var pieces := [preamble] + Texts(sections);
    assert pieces[1..] == Texts(sections);
    Sorting.FilterAll(Texts(sections), NonBlank);
  }

  /** A non-blank preamble becomes the first segment, so every summary moves one article on. */
  lemma PreambleShifts(preamble: string, sections: seq<Section>)
    requires MarkerFree(preamble) && NonBlank(preamble)
    requires forall k :: 0 <= k < |sections| ==> MarkerFree(sections[k].text) && NonBlank(sections[k].text)
    ensures Segments(Reply(preamble, sections)) == [preamble] + Texts(sections)
  {
    PiecesOfReply(preamble, sections);
    var pieces := [preamble] + Texts(sections);
    assert pieces[1..] == Texts(sections);
    Sorting.FilterAll(Texts(sections), NonBlank);
  }

  // ---------------------------------------------------------------- results

  datatype BatchResult = BatchResult(id: string, summary: string, success: bool)

  /** `요약 생성 실패 (기사 i+1)`. */
  function FailureText(index: nat): string {
    "요약 생성 실패 (기사 " + NatToString(index + 1) + ")"
  }

  /** The result of the article at `index`: `summaryParts[index]?.trim() || …` and `!!summaryParts[index]`. */
  function ResultFor(a: BatchArticle, index: nat, segments: seq<string>): BatchResult {
    var summary := if index < |segments| && Trim(segments[index]) != [] then Trim(segments[index]) else FailureText(index);
    BatchResult(a.id, summary, index < |segments| && segments[index] != [])
  }

  /** `articles.map(...)`. */
  function Results(articles: seq<BatchArticle>, segments: seq<string>): (r: seq<BatchResult>)
    ensures |r| == |articles|
    ensures forall i :: 0 <= i < |r| ==> r[i] == ResultFor(articles[i], i, segments)
  {
    seq(|articles|, i requires 0 <= i < |articles| => ResultFor(articles[i], i, segments))
  }

  /**
   * One result per article, in order, with that article's id; an article
   * with a segment gets it trimmed and succeeds, the others get the
   * failure text.
   */
  lemma ResultsByPosition(articles: seq<BatchArticle>, reply: string, i: nat)
    requires i < |articles|
    ensures var r := Results(articles, Segments(reply))[i];
      r.id == articles[i].id &&
      (r.success <==> i < |Segments(reply)|) &&
      (r.success ==> r.summary == Trim(Segments(reply)[i]) && r.summary != []) &&
      (!r.success ==> r.summary == FailureText(i))
  {
    var segments := Segments(reply);
    if i < |segments| {
      assert NonBlank(segments[i]);
    }
  }

  /** `results.filter(r => r.success).length`. */
  function Successes(results: seq<BatchResult>): (n: nat)
    ensures n <= |results|
  {
    if results == [] then 0
    else Successes(results[..|results| - 1]) + (if results[|results| - 1].success then 1 else 0)
  }

  /** The successful count is the smaller of the number of articles and the number of segments. */
  lemma {:induction false} SuccessesCount(articles: seq<BatchArticle>, segments: seq<string>, k: nat)
    requires k <= |articles|
    requires forall j :: 0 <= j < |segments| ==> segments[j] != []
    ensures Successes(Results(articles, segments)[..k]) == if k < |segments| then k else |segments|
  {
    if k > 0 {
      SuccessesCount(articles, segments, k - 1);
      var r := Results(articles, segments);
      assert r[..k][..k - 1] == r[..k - 1];
      assert r[..k][k - 1] == r[k - 1];
    }
  }

  // ---------------------------------------------------------------- the endpoint

  datatype Response =
    | BadRequest(error: string)
    | ServerError(error: string, details: string)
    | Processed(results: seq<BatchResult>, processed: nat, successful: nat, timestamp: string)

  /** The `catch` block: every failure is an `Error` with a message. */
  function CaughtError(message: string): (r: Response)
    ensures r.ServerError?
    ensures Includes(message, "API key") ==> r.error == "OpenAI API key not configured"
    ensures !Includes(message, "API key") ==> r.error == "Failed to generate batch summaries" && r.details == message
  {
    if Includes(message, "API key") then
      ServerError("OpenAI API key not configured", "Please set OPENAI_API_KEY in your environment variables")
    else ServerError("Failed to generate batch summaries", message)
  }

  /**
   * `POST`: `body` is the outcome of `request.json()`, `complete` the
   * chat completion (its reply text may be `null`), `now` the ISO time.
   */
  function Post(body: Result<Body>, complete: ChatRequest -> Result<Field>, now: string): (r: Response)
    ensures body.Ok? && (body.value.articles.None? || body.value.articles.value == []) <==> r.BadRequest?
    ensures body.Failed? ==> r == CaughtError(body.message)
    ensures r.Processed? ==> body.Ok? && body.value.articles.Some? && complete(RequestFor(body.value.systemPrompt, body.value.articles.value)).Ok?
    ensures r.Processed? ==> r.processed == |body.value.articles.value| == |r.results|
    ensures r.Processed? ==> r.results == Results(body.value.articles.value, Segments(OrElse(complete(RequestFor(body.value.systemPrompt, body.value.articles.value)).value, "")))
    ensures r.Processed? ==> r.successful == Successes(r.results) && r.timestamp == now
  {
    match body
    case Failed(message) => CaughtError(message)
    case Ok(b) =>
      if b.articles.None? || b.articles.value == [] then BadRequest("Missing or invalid articles array")
      else
        var articles := b.articles.value;
        match complete(RequestFor(b.systemPrompt, articles))
        case Failed(message) => CaughtError(message)
        case Ok(content) =>
          var results := Results(articles, Segments(OrElse(content, "")));
          Processed(results, |articles|, Successes(results), now)
  }

  /** As many articles succeed as there are segments, at most one each. */
  lemma SuccessfulCount(articles: seq<BatchArticle>, reply: string)
    ensures Successes(Results(articles, Segments(reply))) ==
      if |Segments(reply)| < |articles| then |Segments(reply)| else |articles|
  {
    var segments := Segments(reply);
    forall j | 0 <= j < |segments|
      ensures segments[j] != []
    {
      assert NonBlank(segments[j]);
    }
    SuccessesCount(articles, segments, |articles|);
    assert Results(articles, segments)[..|articles|] == Results(articles, segments);
  }

  /** A reply that marks one non-blank summary per article, after a blank preamble, gives every article its own summary. */
  lemma WellFormedReply(articles: seq<BatchArticle>, preamble: string, sections: seq<Section>)
    requires |sections| == |articles|
    requires MarkerFree(preamble) && !NonBlank(preamble)
    requires forall k :: 0 <= k < |sections| ==> MarkerFree(sections[k].text) && NonBlank(sections[k].text)
    ensures var r := Results(articles, Segments(Reply(preamble, sections)));
      forall i :: 0 <= i < |r| ==> r[i] == BatchResult(articles[i].id, Trim(sections[i].text), true)
  {
    SegmentsOfReply(preamble, sections);
  }
}
