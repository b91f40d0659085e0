/**
 * The text chat endpoint (app/api/chat/route.ts): validate the message,
 * embed it, search with the stricter threshold and count, build the same
 * numbered context as the voice route (no reranking), assemble the model
 * messages, and stream newline-delimited JSON events: the sources first,
 * then the non-empty content deltas, then `done` (or `error`).
 */
module ChatRoute {
  import opened Wrappers
  import opened Strings
  import opened Documents
  import KnowledgeSearch
  import VoiceChat
  import opened ChatStream

  const MaxMessageLength: nat := 4000
  const MaxHistoryLength: nat := 6
  const MatchThreshold: real := 0.5
  const MatchCount: nat := 5
  const PreviewLength: nat := 200

  const EmptyMessageError: string := "메시지를 입력해주세요."
  const SearchFailedError: string := "문서 검색 중 오류가 발생했습니다."

  function TooLongError(): string {
    "메시지는 " + NatToString(MaxMessageLength) + "자를 초과할 수 없습니다."
  }

  datatype Role = User | Assistant | System

  datatype Message = Message(role: Role, content: string)

  datatype ChatRequest = ChatRequest(message: Field, history: seq<Message>)

  /**
   * The services: the embedding call (a throw is a `Failed`), the search
   * RPC, and the fixed persona instructions the context is appended to.
   */
  datatype ChatServices = ChatServices(
    embed: string -> Result<KnowledgeSearch.Embedding>,
    search: KnowledgeSearch.SearchParams -> VoiceChat.SearchResponse,
    persona: string)

  /** A JSON error response, or the start of a stream with the model messages and the sources. */
  datatype ChatReply =
    | JsonError(status: nat, error: string)
    | Stream(messages: seq<Message>, sources: seq<Source>)

  /** The `!message || !message.trim()` and length checks. */
  function Validate(message: Field): (r: Option<ChatReply>)
    ensures r.None? <==> message.Str? && Trim(message.text) != [] && JsLen(message.text) <= MaxMessageLength
    ensures r.Some? ==> r.value.JsonError? && r.value.status == 400
  {
    if !Truthy(message) || Trim(message.text) == [] then Some(JsonError(400, EmptyMessageError))
    else if JsLen(message.text) > MaxMessageLength then Some(JsonError(400, TooLongError()))
    else None
  }

  /** The context: the voice route's numbered blocks, or the fixed sentence when nothing was found. */
  function Context(data: Option<seq<Document>>): string {
    if data.Some? && data.value != [] then Join(VoiceChat.Blocks(data.value, 1), "\n") else NoDocumentsMessage
  }

  /** `history.slice(-6)`. */
  function LastN<T>(s: seq<T>, n: nat): (r: seq<T>)
    ensures |r| == if |s| < n then |s| else n
    ensures r == s[|s| - |r|..]
  {
    if |s| <= n then s else s[|s| - n..]
  }

  function Messages(persona: string, context: string, history: seq<Message>, message: string): seq<Message> {
    [Message(System, persona + context)] + LastN(history, MaxHistoryLength) + [Message(User, message)]
  }

  /** One source; `substring` on a missing or null `content` throws. */
  function ToSource(d: Document): (r: Result<Source>)
    ensures r.Ok? <==> d.content.Str?
  {
    if d.content.Str? then
      Ok(Source(d.id, OrElse(d.title, TitleFallback), JsPrefix(d.content.text, PreviewLength) + "...",
                if Truthy(d.url) then Some(d.url.text) else None, d.similarity))
    else Failed("Cannot read properties of undefined (reading 'substring')")
  }

  function ToSources(docs: seq<Document>): (r: Result<seq<Source>>)
    ensures r.Ok? <==> forall k :: 0 <= k < |docs| ==> docs[k].content.Str?
    ensures r.Ok? ==> |r.value| == |docs| && forall k :: 0 <= k < |docs| ==> r.value[k] == ToSource(docs[k]).value
  {
    if docs == [] then Ok([])
    else match (ToSource(docs[0]), ToSources(docs[1..]))
      case (Ok(s), Ok(ss)) => Ok([s] + ss)
      case (Failed(e), _) => Failed(e)
      case (_, Failed(e)) => Failed(e)
  }

  /** The sources sent first: one per document found, none when nothing was returned. */
  function Sources(data: Option<seq<Document>>): Result<seq<Source>> {
    if data.Some? then ToSources(data.value) else Ok([])
  }

  /** The handler up to the point where the stream is returned. */
  function Chat(req: ChatRequest, svc: ChatServices): (r: ChatReply)
    ensures Validate(req.message).Some? ==> r == Validate(req.message).value
    ensures r.JsonError? ==> r.status == 400 || r.status == 500
    ensures r.Stream? ==>
      |r.messages| >= 2 && r.messages[0].role == System && r.messages[|r.messages| - 1] == Message(User, req.message.text)
    ensures Validate(req.message).None? && svc.embed(req.message.text).Failed? ==> r == JsonError(500, AnswerFailedError)
    ensures Validate(req.message).None? && svc.embed(req.message.text).Ok? ==>
      var response := svc.search(KnowledgeSearch.SearchParams(svc.embed(req.message.text).value, 0.5, 5));
      && (response.failed ==> r == JsonError(500, SearchFailedError))
      && (!response.failed && Sources(response.data).Failed? ==> r == JsonError(500, AnswerFailedError))
      && (!response.failed && Sources(response.data).Ok? ==>
            r == Stream(Messages(svc.persona, Context(response.data), req.history, req.message.text), Sources(response.data).value))
  {
    var invalid := Validate(req.message);
    if invalid.Some? then invalid.value
    else
      var message := req.message.text;
      match svc.embed(message)
      case Failed(_) => JsonError(500, AnswerFailedError)
      case Ok(embedding) =>
        var response := svc.search(KnowledgeSearch.SearchParams(embedding, MatchThreshold, MatchCount));
        if response.failed then JsonError(500, SearchFailedError)
        else
          var messages := Messages(svc.persona, Context(response.data), req.history, message);
          match Sources(response.data)
          case Failed(_) => JsonError(500, AnswerFailedError)
          case Ok(sources) => Stream(messages, sources)
  }

  /** A rejected message is answered without consulting any service. */
  lemma RejectedBeforeServices(req: ChatRequest, svc1: ChatServices, svc2: ChatServices)
    requires !req.message.Str? || Trim(req.message.text) == [] || JsLen(req.message.text) > MaxMessageLength
    ensures Chat(req, svc1) == Chat(req, svc2)
    ensures Chat(req, svc1).JsonError? && Chat(req, svc1).status == 400
  {
  }

  /** The model sees the persona and context, then at most six history messages in order, then the question. */
  lemma {:induction false} MessageOrder(persona: string, context: string, history: seq<Message>, message: string)
    ensures var m := Messages(persona, context, history, message);
      && m[0] == Message(System, persona + context)
      && m[1..|m| - 1] == LastN(history, MaxHistoryLength)
      && |m| - 2 <= MaxHistoryLength
      && m[|m| - 1] == Message(User, message)
  {
    var m := Messages(persona, context, history, message);
    assert m[1..|m| - 1] == LastN(history, MaxHistoryLength);
  }

  /** The context is exactly the one the voice route builds from the same documents. */
  lemma SameContextAsVoice(data: Option<seq<Document>>)
    ensures data.Some? ==> Ok(Context(data)) == VoiceChat.VoiceContext(Some(VoiceChat.Present(data.value)))
    ensures data.None? ==> Ok(Context(data)) == VoiceChat.VoiceContext(None)
  {
    if data.Some? && data.value != [] {
      var p := VoiceChat.Present(data.value);
      assert VoiceChat.AllPresent(p);
      assert VoiceChat.Unwrap(p) == data.value;
    }
  }

  /** A source previews at most 200 code units of the chunk and always ends in `...`. */
  lemma SourcePreview(d: Document)
    requires d.content.Str?
    ensures var s := ToSource(d).value;
      && EndsWith(s.content, "...")
      && StartsWith(d.content.text, s.content[..|s.content| - 3])
      && JsLen(s.content[..|s.content| - 3]) <= PreviewLength
      && (var pre := s.content[..|s.content| - 3];
          |pre| < |d.content.text| ==> JsLen(pre) + Units(d.content.text[|pre|]) > PreviewLength)
      && (s.url.Some? <==> Truthy(d.url))
  {
    var s := ToSource(d).value;
    assert s.content[..|s.content| - 3] == JsPrefix(d.content.text, PreviewLength);
  }
}
