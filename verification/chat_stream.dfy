/**
 * The stream the chat endpoint returns (app/api/chat/route.ts): one JSON
 * object per line, the sources first, then the non-empty content deltas in
 * arrival order, then `done`, or `error` when the model call throws.
 */
module ChatStream {
  import opened Wrappers
  import opened Strings
  import opened Documents
  import opened Json

  /** One entry of the `sources` event. */
  datatype Source = Source(id: string, title: string, content: string, url: Option<string>, similarity: real)

  const AnswerFailedError: string := "답변 생성 중 오류가 발생했습니다."


  datatype Event =
    | SourcesEvent(sources: seq<Source>)
    | ContentEvent(data: string)
    | DoneEvent
    | ErrorEvent(message: string)

  /** What the `catch` of the stream sees: an `Error` (with its message) or any other thrown value. */
  datatype Thrown = ErrorObject(message: string) | OtherValue

  /**
   * The model's stream as it was consumed: the `delta.content` of each
   * chunk received, and what was thrown (by the request or mid-stream), if
   * anything.
   */
  datatype Completion = Completion(deltas: seq<Field>, failure: Option<Thrown>)

  function ContentEvents(deltas: seq<Field>): (r: seq<Event>)
    ensures |r| <= |deltas|
    ensures forall k :: 0 <= k < |r| ==> r[k].ContentEvent? && r[k].data != []
  {
    if deltas == [] then []
    else (if Truthy(deltas[0]) then [ContentEvent(deltas[0].text)] else []) + ContentEvents(deltas[1..])
  }

  function Final(failure: Option<Thrown>): Event {
    match failure
    case None => DoneEvent
    case Some(ErrorObject(m)) => ErrorEvent(m)
    case Some(OtherValue) => ErrorEvent(AnswerFailedError)
  }

  function Events(sources: seq<Source>, c: Completion): seq<Event> {
    [SourcesEvent(sources)] + ContentEvents(c.deltas) + [Final(c.failure)]
  }

  /** All non-empty deltas, concatenated. */
  function Text(deltas: seq<Field>): string {
    if deltas == [] then [] else (if Truthy(deltas[0]) then deltas[0].text else []) + Text(deltas[1..])
  }

  function ContentText(events: seq<Event>): string {
    if events == [] then []
    else (if events[0].ContentEvent? then events[0].data else []) + ContentText(events[1..])
  }

  lemma {:induction false} ContentTextAppend(a: seq<Event>, b: seq<Event>)
    ensures ContentText(a + b) == ContentText(a) + ContentText(b)
  {
    if a == [] {
      assert a + b == b;
    } else {
      ContentTextAppend(a[1..], b);
      assert (a + b)[0] == a[0];
      assert (a + b)[1..] == a[1..] + b;
      ConcatAssoc(if a[0].ContentEvent? then a[0].data else [], ContentText(a[1..]), ContentText(b));
    }
  }

  lemma {:induction false} ContentEventsText(deltas: seq<Field>)
    ensures ContentText(ContentEvents(deltas)) == Text(deltas)
  {
    if deltas != [] {
      ContentEventsText(deltas[1..]);
      var head: seq<Event> := if Truthy(deltas[0]) then [ContentEvent(deltas[0].text)] else [];
      ContentTextAppend(head, ContentEvents(deltas[1..]));
      assert ContentText(head) == if Truthy(deltas[0]) then deltas[0].text else [] by {
        if Truthy(deltas[0]) {
          assert head[1..] == [];
        }
      }
    }
  }

  /**
   * The event order: sources first, then only non-empty content events
   * whose text is the model's text, and last `done` exactly when nothing
   * was thrown, `error` otherwise.
   */
  lemma EventOrder(sources: seq<Source>, c: Completion)
    ensures var e := Events(sources, c);
      && e[0] == SourcesEvent(sources)
      && (forall k :: 1 <= k < |e| - 1 ==> e[k].ContentEvent? && e[k].data != [])
      && (e[|e| - 1].DoneEvent? <==> c.failure.None?)
      && (e[|e| - 1].ErrorEvent? <==> c.failure.Some?)
  {
    var e := Events(sources, c);
    var middle := ContentEvents(c.deltas);
    forall k | 1 <= k < |e| - 1
      ensures e[k].ContentEvent? && e[k].data != []
    {
      assert e[k] == middle[k - 1];
    }
  }

  /** The content events carry exactly the model's text, in order. */
  lemma EventText(sources: seq<Source>, c: Completion)
    ensures ContentText(Events(sources, c)) == Text(c.deltas)
  {
    var first, middle, last := [SourcesEvent(sources)], ContentEvents(c.deltas), [Final(c.failure)];
    ConcatAssoc(first, middle, last);
    ContentTextAppend(first, middle + last);
    ContentTextAppend(middle, last);
    ContentEventsText(c.deltas);
    assert ContentText(first) == [] by {
      assert first[1..] == [];
    }
    assert ContentText(last) == [] by {
      assert last[1..] == [];
    }
  }

  // ---------------------------------------------------------------- JSON lines

  /** Number formatting (`JSON.stringify` of a number) never writes a line break. */
  ghost predicate NumberFormat(num: real -> string) {
    forall x :: '\n' !in num(x)
  }

  function EncodeSource(s: Source, num: real -> string): string {
    "{\"id\":" + Quote(s.id) + ",\"title\":" + Quote(s.title) + ",\"content\":" + Quote(s.content)
    + ",\"url\":" + (if s.url.Some? then Quote(s.url.value) else "null")
    + ",\"similarity\":" + num(s.similarity) + "}"
  }

  function EncodeSources(ss: seq<Source>, num: real -> string): string {
    if ss == [] then [] else EncodeSource(ss[0], num) + (if |ss| > 1 then "," else "") + EncodeSources(ss[1..], num)
  }

  const SourcesPrefix: string := "{\"type\":\"sources\",\"data\":["
  const ContentPrefix: string := "{\"type\":\"content\",\"data\":\""
  const DoneLine: string := "{\"type\":\"done\"}"
  const ErrorPrefix: string := "{\"type\":\"error\",\"message\":\""

  /** `JSON.stringify(event)`, without the trailing newline. */
  function Encode(e: Event, num: real -> string): string {
    match e
    case SourcesEvent(ss) => SourcesPrefix + EncodeSources(ss, num) + "]}"
    case ContentEvent(d) => "{\"type\":\"content\",\"data\":" + Quote(d) + "}"
    case DoneEvent => DoneLine
    case ErrorEvent(m) => "{\"type\":\"error\",\"message\":" + Quote(m) + "}"
  }

  lemma NoBreakInSource(s: Source, num: real -> string)
    requires '\n' !in num(s.similarity)
    ensures '\n' !in EncodeSource(s, num)
  {
  }

  lemma {:induction false} NoBreakInSources(ss: seq<Source>, num: real -> string)
    requires NumberFormat(num)
    ensures '\n' !in EncodeSources(ss, num)
  {
    if ss != [] {
      NoBreakInSources(ss[1..], num);
      NoBreakInSource(ss[0], num);
      var sep: string := if |ss| > 1 then "," else "";
      assert '\n' !in sep;
      assert EncodeSources(ss, num) == EncodeSource(ss[0], num) + sep + EncodeSources(ss[1..], num);
    }
  }

  /** Every encoded event fits on one line. */
  lemma NoBreakInEvent(e: Event, num: real -> string)
    requires NumberFormat(num)
    ensures '\n' !in Encode(e, num)
  {
    match e
    case SourcesEvent(ss) =>
      NoBreakInSources(ss, num);
      assert '\n' !in SourcesPrefix && '\n' !in "]}";
    case ContentEvent(d) =>
      assert '\n' !in Quote(d);
    case DoneEvent =>
    case ErrorEvent(m) =>
      assert '\n' !in Quote(m);
  }

  /**
   * The enqueueing in `start`: one chunk per event, each a JSON line. The
   * chunks are the sources line, a content line for every non-empty delta
   * in arrival order, and the `done` line, or an `error` line in its place
   * when something was thrown.
   */
  method StreamChunks(sources: seq<Source>, c: Completion, num: real -> string) returns (chunks: seq<string>)
    ensures chunks == Lines(Events(sources, c), num)
  {
    chunks := [Encode(SourcesEvent(sources), num) + "\n"];
    ghost var events := [SourcesEvent(sources)];
    assert chunks == Lines(events, num) by {
      assert events[..0] == [];
    }
    var i := 0;
    while i < |c.deltas|
      invariant 0 <= i <= |c.deltas|
      invariant events == [SourcesEvent(sources)] + ContentEvents(c.deltas[..i])
      invariant chunks == Lines(events, num)
    {
      var delta := c.deltas[i];
      ContentEventsSnoc(c.deltas[..i], delta);
      assert c.deltas[..i + 1] == c.deltas[..i] + [delta];
      if Truthy(delta) {
        LinesSnoc(events, ContentEvent(delta.text), num);
        chunks := chunks + [Encode(ContentEvent(delta.text), num) + "\n"];
        events := events + [ContentEvent(delta.text)];
      }
      i := i + 1;
    }
    assert c.deltas[..i] == c.deltas;
    LinesSnoc(events, Final(c.failure), num);
    chunks := chunks + [Encode(Final(c.failure), num) + "\n"];
    events := events + [Final(c.failure)];
  }

  /** The JSON lines of a sequence of events: line `k` is event `k`, encoded and terminated. */
  function Lines(events: seq<Event>, num: real -> string): (r: seq<string>)
    ensures |r| == |events|
    ensures forall k :: 0 <= k < |events| ==> r[k] == Encode(events[k], num) + "\n"
  {
    seq(|events|, k requires 0 <= k < |events| => Encode(events[k], num) + "\n")
  }

  lemma LinesSnoc(events: seq<Event>, e: Event, num: real -> string)
    ensures Lines(events + [e], num) == Lines(events, num) + [Encode(e, num) + "\n"]
  {
    var l, r := Lines(events + [e], num), Lines(events, num) + [Encode(e, num) + "\n"];
    forall k | 0 <= k < |l|
      ensures l[k] == r[k]
    {
      if k < |events| {
        assert (events + [e])[k] == events[k];
      }
    }
  }

  lemma {:induction false} ContentEventsSnoc(deltas: seq<Field>, d: Field)
    ensures ContentEvents(deltas + [d]) == ContentEvents(deltas) + (if Truthy(d) then [ContentEvent(d.text)] else [])
  {
    var last: seq<Event> := if Truthy(d) then [ContentEvent(d.text)] else [];
    if deltas == [] {
      assert deltas + [d] == [d];
      assert ContentEvents([d]) == last + ContentEvents([d][1..]);
      assert [d][1..] == [];
    } else {
      ContentEventsSnoc(deltas[1..], d);
      var first: seq<Event> := if Truthy(deltas[0]) then [ContentEvent(deltas[0].text)] else [];
      assert (deltas + [d])[0] == deltas[0] && (deltas + [d])[1..] == deltas[1..] + [d];
      assert ContentEvents(deltas + [d]) == first + ContentEvents(deltas[1..] + [d]);
      assert ContentEvents(deltas) == first + ContentEvents(deltas[1..]);
    }
  }
}
