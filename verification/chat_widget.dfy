/**
 * The chat widget (components/ChatWidget.tsx): it reads the chat
 * endpoint's newline-delimited JSON stream chunk by chunk, keeps the
 * partial last line in a buffer, dispatches every complete non-blank line,
 * and shows which sources the answer cites. Also its slash-command
 * palette, the greeting chosen by the hour, and the history it sends.
 */
module ChatWidget {
  import opened Wrappers
  import opened Strings
  import Scan
  import opened Json
  import opened ChatStream
  import ChatRoute

  // ---------------------------------------------------------------- decoding lines

  /** What one line of the stream means to the widget. */
  datatype Chunk =
    | SourcesChunk(sources: seq<Source>)
    | ContentChunk(data: string)
    | DoneChunk
    | ErrorChunk(message: string)
    | Unreadable

  /**
   * `JSON.parse(line)` and the test of its `type`, for the four line shapes
   * the endpoint writes. `Unreadable` stands for every other line: one that
   * does not parse, one whose `type` is none of the four, and also a line
   * of one of the four types laid out otherwise (other key order, spaces),
   * which `JSON.parse` would read. The widget ignores the first two kinds,
   * and the endpoint writes none of the third. The array of sources is
   * decoded by `parseSources` from the text after its opening bracket.
   */
  function DecodeLine(line: string, parseSources: string -> Option<seq<Source>>): Chunk {
    if StartsWith(line, SourcesPrefix) then
      match parseSources(line[|SourcesPrefix|..])
      case Some(ss) => SourcesChunk(ss)
      case None => Unreadable
    else if StartsWith(line, ContentPrefix) then
      match Unquote(line[|ContentPrefix|..])
      case Some((d, rest)) => if rest == "}" then ContentChunk(d) else Unreadable
      case None => Unreadable
    else if line == DoneLine then DoneChunk
    else if StartsWith(line, ErrorPrefix) then
      match Unquote(line[|ErrorPrefix|..])
      case Some((m, rest)) => if rest == "}" then ErrorChunk(m) else Unreadable
      case None => Unreadable
    else Unreadable
  }

  /** The sources decoder reads back what the endpoint wrote. */
  ghost predicate ReadsSources(parseSources: string -> Option<seq<Source>>, num: real -> string) {
    forall ss :: parseSources(EncodeSources(ss, num) + "]}") == Some(ss)
  }

  /** The chunk the widget sees for an event. */
  function Expected(e: Event): Chunk {
    match e
    case SourcesEvent(ss) => SourcesChunk(ss)
    case ContentEvent(d) => ContentChunk(d)
    case DoneEvent => DoneChunk
    case ErrorEvent(m) => ErrorChunk(m)
  }

  lemma PrefixedBy(line: string, p: string, rest: string)
    requires line == p + rest
    ensures StartsWith(line, p) && line[|p|..] == rest
  {
    assert line[..|p|] == p;
  }

  /** A field holding a quoted string, regrouped around the opening quote. */
  lemma QuotedField(head: string, x: string)
    ensures head + Quote(x) + "}" == (head + "\"") + (Escape(x) + "\"" + "}")
  {
  }

  lemma NotPrefixedBy(line: string, p: string, k: nat)
    requires k < |p| && k < |line| && line[k] != p[k]
    ensures !StartsWith(line, p)
  {
    if |p| <= |line| {
      assert line[..|p|][k] == line[k];
    }
  }

  lemma DecodeSources(ss: seq<Source>, num: real -> string, parseSources: string -> Option<seq<Source>>)
    requires ReadsSources(parseSources, num)
    ensures DecodeLine(Encode(SourcesEvent(ss), num), parseSources) == SourcesChunk(ss)
  {
    PrefixedBy(Encode(SourcesEvent(ss), num), SourcesPrefix, EncodeSources(ss, num) + "]}");
  }

  lemma DecodeContent(d: string, num: real -> string, parseSources: string -> Option<seq<Source>>)
    ensures DecodeLine(Encode(ContentEvent(d), num), parseSources) == ContentChunk(d)
  {
    var line := Encode(ContentEvent(d), num);
    QuotedField("{\"type\":\"content\",\"data\":", d);
    assert line == ContentPrefix + (Escape(d) + "\"" + "}");
    PrefixedBy(line, ContentPrefix, Escape(d) + "\"" + "}");
    assert line[9] == ContentPrefix[9] == 'c';
    NotPrefixedBy(line, SourcesPrefix, 9);
    UnquoteEscape(d, "}");
  }

  lemma DecodeDone(num: real -> string, parseSources: string -> Option<seq<Source>>)
    ensures DecodeLine(Encode(DoneEvent, num), parseSources) == DoneChunk
  {
    NotPrefixedBy(DoneLine, SourcesPrefix, 9);
    NotPrefixedBy(DoneLine, ContentPrefix, 9);
  }

  lemma DecodeError(m: string, num: real -> string, parseSources: string -> Option<seq<Source>>)
    ensures DecodeLine(Encode(ErrorEvent(m), num), parseSources) == ErrorChunk(m)
  {
    var line := Encode(ErrorEvent(m), num);
    QuotedField("{\"type\":\"error\",\"message\":", m);
    assert line == ErrorPrefix + (Escape(m) + "\"" + "}");
    PrefixedBy(line, ErrorPrefix, Escape(m) + "\"" + "}");
    assert line[9] == ErrorPrefix[9] == 'e';
    NotPrefixedBy(line, SourcesPrefix, 9);
    NotPrefixedBy(line, ContentPrefix, 9);
    assert line[9] != DoneLine[9];
    UnquoteEscape(m, "}");
  }

  /** Decoding a line the endpoint encoded gives back its event. */
  lemma DecodeEncoded(e: Event, num: real -> string, parseSources: string -> Option<seq<Source>>)
    requires ReadsSources(parseSources, num)
    ensures DecodeLine(Encode(e, num), parseSources) == Expected(e)
  {
    match e
    case SourcesEvent(ss) => DecodeSources(ss, num, parseSources);
    case ContentEvent(d) => DecodeContent(d, num, parseSources);
    case DoneEvent => DecodeDone(num, parseSources);
    case ErrorEvent(m) => DecodeError(m, num, parseSources);
  }

  // ---------------------------------------------------------------- the stream loop

  /** What the assistant message shows: the last sources received, the text so far, and whether it is still streaming. */
  datatype StreamView = StreamView(sources: seq<Source>, content: string, streaming: bool)

  const Initial: StreamView := StreamView([], [], true)

  /**
   * One complete line: blank lines are skipped; an `error` chunk throws
   * inside the per-line `try` and is only logged, as is a line that does
   * not parse.
   */
  function Dispatch(v: StreamView, line: string, parseSources: string -> Option<seq<Source>>): StreamView {
    if Trim(line) == [] then v
    else
      match DecodeLine(line, parseSources)
      case SourcesChunk(ss) => v.(sources := ss)
      case ContentChunk(d) => v.(content := v.content + d, streaming := true)
      case DoneChunk => v.(streaming := false)
      case ErrorChunk(_) => v
      case Unreadable => v
  }

  /** The lines dispatched in order. */
  function Process(v: StreamView, lines: seq<string>, parseSources: string -> Option<seq<Source>>): StreamView
    decreases |lines|
  {
    if lines == [] then v
    else Dispatch(Process(v, lines[..|lines| - 1], parseSources), lines[|lines| - 1], parseSources)
  }

  lemma ProcessSnoc(v: StreamView, lines: seq<string>, line: string, parseSources: string -> Option<seq<Source>>)
    ensures Process(v, lines + [line], parseSources) == Dispatch(Process(v, lines, parseSources), line, parseSources)
  {
    assert (lines + [line])[..|lines|] == lines;
  }

  lemma {:induction false} ProcessAppend(v: StreamView, a: seq<string>, b: seq<string>, parseSources: string -> Option<seq<Source>>)
    ensures Process(v, a + b, parseSources) == Process(Process(v, a, parseSources), b, parseSources)
    decreases |b|
  {
    if b == [] {
      assert a + b == a;
    } else {
      ProcessAppend(v, a, b[..|b| - 1], parseSources);
      assert (a + b)[..|a + b| - 1] == a + b[..|b| - 1];
    }
  }

  /** The complete lines of one read, dispatched one after the other. */
  method DispatchLines(v: StreamView, lines: seq<string>, parseSources: string -> Option<seq<Source>>) returns (w: StreamView)
    ensures w == Process(v, lines, parseSources)
  {
    w := v;
    for j := 0 to |lines|
      invariant w == Process(v, lines[..j], parseSources)
    {
      ProcessSnoc(v, lines[..j], lines[j], parseSources);
      assert lines[..j + 1] == lines[..j] + [lines[j]];
      w := Dispatch(w, lines[j], parseSources);
    }
    assert lines[..|lines|] == lines;
  }

  /** The chunks the reader delivered, concatenated. */
  function Concat(chunks: seq<string>): string
    decreases |chunks|
  {
    if chunks == [] then [] else Concat(chunks[..|chunks| - 1]) + chunks[|chunks| - 1]
  }

  function IsNewline(c: char): bool { c == '\n' }

  predicate NoBreak(s: string) { '\n' !in s }

  predicate NoBreaks(lines: seq<string>) { forall k :: 0 <= k < |lines| ==> NoBreak(lines[k]) }

  /** `buffer.split('\n')`: the text cut at its line breaks; the last piece is the partial line. */
  function Pieces(text: string): (r: seq<string>)
    ensures r != [] && NoBreaks(r)
  {
    var r := SplitBy(text, IsNewline);
    assert NoBreaks(r) by {
      forall k | 0 <= k < |r|
        ensures NoBreak(r[k])
      {
        assert forall j :: 0 <= j < |r[k]| ==> !IsNewline(r[k][j]);
      }
    }
    r
  }

  /** Joining the pieces with line breaks gives back the text. */
  lemma PiecesJoin(text: string)
    ensures Join(Pieces(text), "\n") == text
  {
    SplitJoin(text, '\n', IsNewline);
  }

  /** Lines without breaks, joined with breaks, are cut back into the same lines. */
  lemma PiecesOfJoin(lines: seq<string>)
    requires lines != [] && NoBreaks(lines)
    ensures Pieces(Join(lines, "\n")) == lines
  {
    assert forall k :: 0 <= k < |lines| ==> '\n' !in lines[k] by {
      forall k | 0 <= k < |lines|
        ensures '\n' !in lines[k]
      {
        assert NoBreak(lines[k]);
      }
    }
    SplitJoined(lines, '\n', IsNewline);
  }

  /**
   * The read loop of `handleSend` over the decoded chunks the reader
   * delivers: append the chunk to the buffer, split it at line breaks, keep
   * the last piece as the new buffer and dispatch the others. What it ends
   * with depends only on the concatenation of the chunks, not on where the
   * network cut them.
   */
  method ReadStream(received: seq<string>, parseSources: string -> Option<seq<Source>>) returns (buffer: string, view: StreamView)
    ensures var pieces := Pieces(Concat(received));
      && buffer == pieces[|pieces| - 1]
      && view == Process(Initial, pieces[..|pieces| - 1], parseSources)
  {
    buffer, view := [], Initial;
    ghost var done: seq<string> := [];
    assert done + [buffer] == [[]];
    for i := 0 to |received|
      invariant Join(done + [buffer], "\n") == Concat(received[..i])
      invariant NoBreaks(done + [buffer])
      invariant view == Process(Initial, done, parseSources)
    {
      var text := buffer + received[i];
      var lines := Pieces(text);
      view := DispatchLines(view, lines[..|lines| - 1], parseSources);
      ReadStep(done, buffer, received, i, lines, parseSources);
      done := done + lines[..|lines| - 1];
      buffer := lines[|lines| - 1];
    }
    ReadEnd(done, buffer, received);
  }

  /** The invariant of the read loop survives one chunk. */
  lemma ReadStep(done: seq<string>, buffer: string, received: seq<string>, i: nat, lines: seq<string>,
                 parseSources: string -> Option<seq<Source>>)
    requires i < |received|
    requires Join(done + [buffer], "\n") == Concat(received[..i])
    requires NoBreaks(done + [buffer])
    requires lines == Pieces(buffer + received[i])
    ensures var next := done + lines[..|lines| - 1];
      && Join(next + [lines[|lines| - 1]], "\n") == Concat(received[..i + 1])
      && NoBreaks(next + [lines[|lines| - 1]])
      && Process(Initial, next, parseSources) == Process(Process(Initial, done, parseSources), lines[..|lines| - 1], parseSources)
  {
    ProcessAppend(Initial, done, lines[..|lines| - 1], parseSources);
    AppendAllButLast(done, lines);
    ReadStepJoin(done, buffer, received, i, lines);
    ReadStepNoBreaks(done, buffer, lines);
  }

  /** Appending all but the last element and then the last is appending the whole. */
  lemma AppendAllButLast<T>(a: seq<T>, b: seq<T>)
    requires b != []
    ensures (a + b[..|b| - 1]) + [b[|b| - 1]] == a + b
  {
    assert b[..|b| - 1] + [b[|b| - 1]] == b;
  }

  /** The dispatched lines and the new pieces still join to everything received. */
  lemma ReadStepJoin(done: seq<string>, buffer: string, received: seq<string>, i: nat, lines: seq<string>)
    requires i < |received|
    requires Join(done + [buffer], "\n") == Concat(received[..i])
    requires lines == Pieces(buffer + received[i])
    ensures Join(done + lines, "\n") == Concat(received[..i + 1])
  {
    var chunk := received[i];
    PiecesJoin(buffer + chunk);
    assert received[..i + 1] == received[..i] + [chunk];
    assert received[..i + 1][..i] == received[..i];
    if done != [] {
      JoinAppend(done, lines, "\n");
      JoinAppend(done, [buffer], "\n");
      ConcatAssoc(Join(done, "\n") + "\n", buffer, chunk);
    } else {
      assert done + lines == lines;
    }
  }

  /** No piece, old or new, holds a line break. */
  lemma ReadStepNoBreaks(done: seq<string>, buffer: string, lines: seq<string>)
    requires NoBreaks(done + [buffer]) && NoBreaks(lines)
    ensures NoBreaks(done + lines)
  {
    forall k | 0 <= k < |done + lines|
      ensures NoBreak((done + lines)[k])
    {
      if k < |done| {
        assert (done + [buffer])[k] == done[k];
      }
    }
  }

  /** When the reader is done, the lines dispatched and the buffer are the pieces of everything received. */
  lemma ReadEnd(done: seq<string>, buffer: string, received: seq<string>)
    requires Join(done + [buffer], "\n") == Concat(received[..|received|])
    requires NoBreaks(done + [buffer])
    ensures var pieces := Pieces(Concat(received));
      pieces[|pieces| - 1] == buffer && pieces[..|pieces| - 1] == done
  {
    assert received[..|received|] == received;
    PiecesOfJoin(done + [buffer]);
    assert (done + [buffer])[..|done|] == done;
  }

  /** One event applied to the view, as `Dispatch` applies its line. */
  function Step(v: StreamView, e: Event): StreamView {
    match e
    case SourcesEvent(ss) => v.(sources := ss)
    case ContentEvent(d) => v.(content := v.content + d, streaming := true)
    case DoneEvent => v.(streaming := false)
    case ErrorEvent(_) => v
  }

  function Replay(v: StreamView, events: seq<Event>): StreamView
    decreases |events|
  {
    if events == [] then v else Step(Replay(v, events[..|events| - 1]), events[|events| - 1])
  }

  /** The endpoint's events, encoded, without their line breaks. */
  function Encoded(events: seq<Event>, num: real -> string): (r: seq<string>)
    ensures |r| == |events|
    ensures forall k :: 0 <= k < |events| ==> r[k] == Encode(events[k], num)
  {
    seq(|events|, k requires 0 <= k < |events| => Encode(events[k], num))
  }

  /** Every line followed by a line break. */
  function Terminated(lines: seq<string>): (r: seq<string>)
    ensures |r| == |lines|
    ensures forall k :: 0 <= k < |lines| ==> r[k] == lines[k] + "\n"
  {
    seq(|lines|, k requires 0 <= k < |lines| => lines[k] + "\n")
  }

  /** Terminating every line and concatenating is joining with breaks and ending with an empty piece. */
  lemma {:induction false} TerminatedJoin(lines: seq<string>)
    ensures Concat(Terminated(lines)) == Join(lines + [[]], "\n")
    decreases |lines|
  {
    if lines == [] {
      assert lines + [[]] == [[]];
    } else {
      var init, x := lines[..|lines| - 1], lines[|lines| - 1];
      TerminatedJoin(init);
      assert Terminated(lines)[..|lines| - 1] == Terminated(init);
      assert lines == init + [x];
      JoinSnoc(lines, [], "\n");
      JoinSnoc(init, x, "\n");
      JoinSnoc(init, [], "\n");
      if init != [] {
        ConcatAssoc(Join(init, "\n") + "\n", x, "\n");
      }
    }
  }

  /** A line of the endpoint is never blank, and it decodes to its event. */
  lemma DispatchEncoded(v: StreamView, e: Event, num: real -> string, parseSources: string -> Option<seq<Source>>)
    requires ReadsSources(parseSources, num)
    ensures Dispatch(v, Encode(e, num), parseSources) == Step(v, e)
  {
    var line := Encode(e, num);
    DecodeEncoded(e, num, parseSources);
    assert line[0] == '{';
    TrimEmptyIffBlank(line);
  }

  /** Dispatching the endpoint's lines replays their events. */
  lemma {:induction false} ProcessEncoded(events: seq<Event>, num: real -> string, parseSources: string -> Option<seq<Source>>)
    requires ReadsSources(parseSources, num)
    ensures Process(Initial, Encoded(events, num), parseSources) == Replay(Initial, events)
    decreases |events|
  {
    if events != [] {
      var init := events[..|events| - 1];
      ProcessEncoded(init, num, parseSources);
      assert Encoded(events, num)[..|events| - 1] == Encoded(init, num);
      DispatchEncoded(Replay(Initial, init), events[|events| - 1], num, parseSources);
    }
  }

  /**
   * Whatever the chunking, a widget reading the endpoint's stream ends with
   * an empty buffer and every event applied in order.
   */
  lemma WidgetReadsEndpoint(received: seq<string>, events: seq<Event>, num: real -> string, parseSources: string -> Option<seq<Source>>)
    requires NumberFormat(num) && ReadsSources(parseSources, num)
    requires Concat(received) == Concat(Lines(events, num))
    ensures var pieces := Pieces(Concat(received));
      && pieces[|pieces| - 1] == []
      && Process(Initial, pieces[..|pieces| - 1], parseSources) == Replay(Initial, events)
  {
    var enc := Encoded(events, num);
    EncodedPieces(events, num);
    var pieces := Pieces(Concat(received));
    assert pieces == enc + [[]];
    assert pieces[..|pieces| - 1] == enc;
    ProcessEncoded(events, num, parseSources);
  }

  /** The endpoint's stream splits at its line breaks into the encoded events and a last, empty piece. */
  lemma EncodedPieces(events: seq<Event>, num: real -> string)
    requires NumberFormat(num)
    ensures Pieces(Concat(Lines(events, num))) == Encoded(events, num) + [[]]
  {
    var enc := Encoded(events, num);
    assert Lines(events, num) == Terminated(enc);
    TerminatedJoin(enc);
    forall k | 0 <= k < |enc + [[]]|
      ensures NoBreak((enc + [[]])[k])
    {
      if k < |enc| {
        NoBreakInEvent(events[k], num);
      }
    }
    PiecesOfJoin(enc + [[]]);
  }

  /** The content the widget shows after a whole stream is exactly the text the endpoint streamed. */
  lemma {:induction false} ReplayContent(events: seq<Event>)
    ensures Replay(Initial, events).content == ContentText(events)
    decreases |events|
  {
    if events != [] {
      var init := events[..|events| - 1];
      var e := events[|events| - 1];
      ReplayContent(init);
      assert events == init + [e];
      ContentTextAppend(init, [e]);
      assert [e][1..] == [];
    }
  }

  // ---------------------------------------------------------------- cited sources

  /** `\[<tag>\s+(\d+)\]`: the tag literal is a parameter. */
  function Marker(tag: string): Scan.Matcher {
    (s: string, i: nat) => MarkerLen(s, tag, i)
  }

  /** The length of the marker at `i`, 0 when there is none. */
  function MarkerLen(s: string, tag: string, i: nat): nat {
    if OccursAt(s, "[" + tag, i) then
      var sp := Scan.RunLen(s, IsSpace, i + 1 + |tag|);
      var d := Scan.RunLen(s, IsDigit, i + 1 + |tag| + sp);
      if sp >= 1 && d >= 1 && i + 1 + |tag| + sp + d < |s| && s[i + 1 + |tag| + sp + d] == ']'
      then 1 + |tag| + sp + d + 1 else 0
    else 0
  }

  /** `parseInt(match[1], 10)` of one marker. */
  function MarkerNumber(s: string, tag: string, sp: Scan.Span): nat
    requires sp.start + sp.len <= |s|
  {
    DigitsValue(LeadingDigits(SkipSpaces(AfterTag(s[sp.start..sp.start + sp.len], tag))))
  }

  /** What follows `[` and the tag. */
  function AfterTag(t: string, tag: string): string {
    if 1 + |tag| <= |t| then t[1 + |tag|..] else []
  }

  /** The text after its leading whitespace. */
  function SkipSpaces(s: string): string {
    s[Scan.RunLen(s, IsSpace, 0)..]
  }

  /** The leading digits of a text. */
  function LeadingDigits(s: string): (r: string)
    ensures forall k :: 0 <= k < |r| ==> IsDigit(r[k])
  {
    s[..Scan.RunLen(s, IsDigit, 0)]
  }

  /** The source numbers the content cites. */
  function Used(content: string, tag: string): set<nat> {
    var ms := Scan.Matches(content, Marker(tag));
    set k | 0 <= k < |ms| :: MarkerNumber(content, tag, ms[k])
  }

  /** The positions `i` below `n`, ascending, whose number `i + 1` is cited. */
  function CitedIndices(n: nat, used: set<nat>): (r: seq<nat>)
    ensures forall j :: 0 <= j < |r| ==> r[j] < n && r[j] + 1 in used
    ensures forall i :: 0 <= i < n && i + 1 in used ==> i in r
    ensures forall j, k :: 0 <= j < k < |r| ==> r[j] < r[k]
  {
    if n == 0 then [] else CitedIndices(n - 1, used) + (if n in used then [n - 1] else [])
  }

  /** `msg.sources.filter((_, i) => usedSourceNumbers.has(i + 1))`. */
  function CitedSources(sources: seq<Source>, content: string, tag: string): (r: seq<Source>)
    ensures |r| <= |sources|
  {
    CitedFrom(sources, Used(content, tag))
  }

  /** The sources whose numbers are in `used`, in their order. */
  function CitedFrom(sources: seq<Source>, used: set<nat>): (r: seq<Source>)
    ensures |r| <= |sources|
  {
    var idx := CitedIndices(|sources|, used);
    CitedCount(idx, |sources|);
    Pick(sources, idx)
  }

  /** The sources at the given positions, in that order. */
  function Pick(sources: seq<Source>, idx: seq<nat>): (r: seq<Source>)
    requires forall j :: 0 <= j < |idx| ==> idx[j] < |sources|
    ensures |r| == |idx|
    ensures forall j :: 0 <= j < |idx| ==> r[j] == sources[idx[j]]
  {
    seq(|idx|, j requires 0 <= j < |idx| => sources[idx[j]])
  }

  /** A strictly ascending list of positions below `n` has at most `n` entries. */
  lemma {:induction false} CitedCount(idx: seq<nat>, n: nat)
    requires forall j :: 0 <= j < |idx| ==> idx[j] < n
    requires forall j, k :: 0 <= j < k < |idx| ==> idx[j] < idx[k]
    ensures |idx| <= n
    decreases n
  {
    if idx != [] {
      var last := idx[|idx| - 1];
      var init := idx[..|idx| - 1];
      assert forall j :: 0 <= j < |init| ==> init[j] < last;
      CitedCount(init, last);
    }
  }

  lemma OccursAtFirst(s: string, p: string, j: nat)
    requires p != []
    ensures OccursAt(s, p, j) ==> j < |s| && s[j] == p[0]
  {
    if OccursAt(s, p, j) {
      assert s[j..j + |p|][0] == s[j];
    }
  }

  /** The marker text for source number `n`. */
  function MarkerText(tag: string, n: nat): string {
    "[" + tag + " " + NatToString(n) + "]"
  }

  /** A marker around any nonempty run of digits `d` is one match spanning the whole text. */
  lemma MarkerSpans(tag: string, d: string)
    requires |d| >= 1 && forall k :: 0 <= k < |d| ==> IsDigit(d[k])
    ensures var text := "[" + tag + " " + d + "]";
      Scan.Matches(text, Marker(tag)) == [Scan.Span(0, |text|)]
  {
    var text := "[" + tag + " " + d + "]";
    MarkerLenWhole(tag, d);
    assert Marker(tag)(text, 0) == |text|;
    assert Scan.MatchesFrom(text, Marker(tag), |text|) == [];
  }

  /** The marker at the start of `[<tag> <d>]` is the whole text. */
  lemma MarkerLenWhole(tag: string, d: string)
    requires |d| >= 1 && forall k :: 0 <= k < |d| ==> IsDigit(d[k])
    ensures var text := "[" + tag + " " + d + "]";
      MarkerLen(text, tag, 0) == |text|
  {
    MarkerLayout(tag, d);
    MarkerLenFromParts("[" + tag + " " + d + "]", tag, d);
  }

  /** Where the parts of `[<tag> <d>]` sit. */
  lemma MarkerLayout(tag: string, d: string)
    ensures var text, l := "[" + tag + " " + d + "]", |tag|;
      && |text| == 3 + l + |d|
      && text[..1 + l] == "[" + tag
      && text[1 + l] == ' '
      && text[2 + l..2 + l + |d|] == d
      && text[2 + l + |d|] == ']'
  {
    var text := "[" + tag + " " + d + "]";
    assert text == ("[" + tag) + (" " + d + "]");
  }

  /** A text laid out as `[<tag> <d>]`, read position by position, is one whole marker. */
  lemma MarkerLenFromParts(text: string, tag: string, d: string)
    requires |d| >= 1 && forall k :: 0 <= k < |d| ==> IsDigit(d[k])
    requires |text| == 3 + |tag| + |d|
    requires text[..1 + |tag|] == "[" + tag
    requires text[1 + |tag|] == ' '
    requires text[2 + |tag|..2 + |tag| + |d|] == d
    requires text[2 + |tag| + |d|] == ']'
    ensures MarkerLen(text, tag, 0) == |text|
  {
    var l := |tag|;
    assert OccursAt(text, "[" + tag, 0);
    forall j | 2 + l <= j < 2 + l + |d|
      ensures IsDigit(text[j])
    {
      assert text[j] == d[j - (2 + l)];
    }
    assert text[2 + l] == d[0];
    assert !IsSpace(text[2 + l]);
    Scan.RunLenOver(text, IsSpace, 1 + l, 1);
    Scan.RunLenOver(text, IsDigit, 2 + l, |d|);
    MarkerLenAt(text, tag, 0, 1, |d|);
  }

  /** The marker length at `i` from the lengths of its whitespace and digit runs. */
  lemma MarkerLenAt(s: string, tag: string, i: nat, sp: nat, d: nat)
    requires OccursAt(s, "[" + tag, i)
    requires Scan.RunLen(s, IsSpace, i + 1 + |tag|) == sp >= 1
    requires Scan.RunLen(s, IsDigit, i + 1 + |tag| + sp) == d >= 1
    requires i + 1 + |tag| + sp + d < |s| && s[i + 1 + |tag| + sp + d] == ']'
    ensures MarkerLen(s, tag, i) == 1 + |tag| + sp + d + 1
  {
  }

  /** The number read from that match is the value of `d`. */
  lemma MarkerDigits(tag: string, d: string)
    requires |d| >= 1 && forall k :: 0 <= k < |d| ==> IsDigit(d[k])
    ensures var text := "[" + tag + " " + d + "]";
      MarkerNumber(text, tag, Scan.Span(0, |text|)) == DigitsValue(d)
  {
    MarkerNumberWhole("[" + tag + " " + d + "]", tag);
    MarkerDigitsText(tag, d);
  }

  /** The number of a marker spanning a whole text is read from the whole text. */
  lemma MarkerNumberWhole(text: string, tag: string)
    ensures MarkerNumber(text, tag, Scan.Span(0, |text|)) == DigitsValue(LeadingDigits(SkipSpaces(AfterTag(text, tag))))
  {
    assert text[0..0 + |text|] == text;
  }

  /** The digits read from `[<tag> <d>]` are `d`. */
  lemma MarkerDigitsText(tag: string, d: string)
    requires |d| >= 1 && forall k :: 0 <= k < |d| ==> IsDigit(d[k])
    ensures LeadingDigits(SkipSpaces(AfterTag("[" + tag + " " + d + "]", tag))) == d
  {
    var text := "[" + tag + " " + d + "]";
    assert text == ("[" + tag) + (" " + d + "]");
    var digits := AfterTag(text, tag);
    assert digits == " " + d + "]";
    Scan.RunLenOver(digits, IsSpace, 0, 1);
    var ds := SkipSpaces(digits);
    assert ds == d + "]";
    Scan.RunLenOver(ds, IsDigit, 0, |d|);
  }

  /** The marker for `n` is one match spanning the whole text. */
  lemma MarkerMatches(tag: string, n: nat)
    ensures Scan.Matches(MarkerText(tag, n), Marker(tag)) == [Scan.Span(0, |MarkerText(tag, n)|)]
  {
    MarkerSpans(tag, NatToString(n));
  }

  /** The number read from that match is `n`. */
  lemma MarkerValue(tag: string, n: nat)
    ensures MarkerNumber(MarkerText(tag, n), tag, Scan.Span(0, |MarkerText(tag, n)|)) == n
  {
    MarkerDigits(tag, NatToString(n));
    NatToStringRoundTrip(n);
  }

  /** The one marker for `n` is read back as the number `n`. */
  lemma MarkerRead(tag: string, n: nat)
    ensures Used(MarkerText(tag, n), tag) == {n}
  {
    MarkerMatches(tag, n);
    MarkerValue(tag, n);
    var text := MarkerText(tag, n);
    var ms := Scan.Matches(text, Marker(tag));
    assert ms[0] == Scan.Span(0, |text|);
    assert n in Used(text, tag);
    forall x | x in Used(text, tag)
      ensures x == n
    {
      var k :| 0 <= k < |ms| && x == MarkerNumber(text, tag, ms[k]);
      assert k == 0;
    }
  }

  lemma {:induction false} CitedOne(count: nat, n: nat)
    ensures CitedIndices(count, {n}) == if 1 <= n <= count then [n - 1] else []
  {
    if count > 0 {
      CitedOne(count - 1, n);
    }
  }

  /** A content whose one marker is `n` shows exactly source `n`, when there is one. */
  lemma MarkerCites(sources: seq<Source>, tag: string, n: nat)
    ensures CitedSources(sources, MarkerText(tag, n), tag) == if 1 <= n <= |sources| then [sources[n - 1]] else []
  {
    MarkerRead(tag, n);
    CitedSingle(sources, n);
  }

  /** Citing exactly the number `n` shows source `n`, when there is one. */
  lemma CitedSingle(sources: seq<Source>, n: nat)
    ensures CitedFrom(sources, {n}) == if 1 <= n <= |sources| then [sources[n - 1]] else []
  {
    CitedOne(|sources|, n);
    if 1 <= n <= |sources| {
      PickOne(sources, n - 1);
    }
  }

  lemma PickOne(sources: seq<Source>, i: nat)
    requires i < |sources|
    ensures Pick(sources, [i]) == [sources[i]]
  {
    var r := Pick(sources, [i]);
    assert |r| == 1 && r[0] == sources[i];
  }

  /** Without any marker no source is shown. */
  lemma NoMarkerNoSources(sources: seq<Source>, content: string, tag: string)
    requires '[' !in content
    ensures CitedSources(sources, content, tag) == []
  {
    var m := Marker(tag);
    forall j | 0 <= j < |content|
      ensures !Scan.MatchAt(content, m, j)
    {
      OccursAtFirst(content, "[" + tag, j);
    }
    NoMatchesFrom(content, m, 0);
    assert Scan.Matches(content, m) == [];
    assert Used(content, tag) == {};
    NothingCited(|sources|);
  }

  lemma {:induction false} NothingCited(n: nat)
    ensures CitedIndices(n, {}) == []
  {
    if n > 0 {
      NothingCited(n - 1);
    }
  }

  lemma {:induction false} NoMatchesFrom(s: string, m: Scan.Matcher, i: nat)
    requires i <= |s|
    requires forall j :: i <= j < |s| ==> !Scan.MatchAt(s, m, j)
    ensures Scan.MatchesFrom(s, m, i) == []
    decreases |s| - i
  {
    if i < |s| {
      NoMatchesFrom(s, m, i + 1);
    }
  }

  // ---------------------------------------------------------------- slash commands

  datatype Command = Command(command: string, description: string)

  datatype Palette = Palette(filtered: seq<Command>, visible: bool, selected: nat)

  /** The command or the description contains the search term, ignoring case. */
  predicate Matches(c: Command, term: string) {
    Includes(Lower(c.command), term) || Includes(Lower(c.description), term)
  }

  /** `SLASH_COMMANDS.filter(...)`: the commands that match the search term. */
  function Matching(commands: seq<Command>, term: string): (r: seq<Command>)
    ensures forall c :: c in r <==> c in commands && Matches(c, term)
    ensures |r| <= |commands|
  {
    if commands == [] then []
    else (if Matches(commands[0], term) then [commands[0]] else []) + Matching(commands[1..], term)
  }

  /**
   * The filter keeps the order of the commands: the matches of a list
   * followed by another are the matches of the first followed by those of
   * the second. With the one-command case this determines the filter.
   */
  lemma {:induction false} MatchingAppend(a: seq<Command>, b: seq<Command>, term: string)
    ensures Matching(a + b, term) == Matching(a, term) + Matching(b, term)
    ensures |a| == 1 ==> Matching(a, term) == if Matches(a[0], term) then a else []
  {
    if a != [] {
      MatchingAppend(a[1..], b, term);
      MatchingStep(a, b, term);
      if |a| == 1 {
        MatchingOne(a[0], term);
        assert a == [a[0]];
      }
    } else {
      assert a + b == b;
    }
  }

  /** The first command of `a` is tested first, also when `b` follows. */
  lemma MatchingStep(a: seq<Command>, b: seq<Command>, term: string)
    requires a != []
    requires Matching(a[1..] + b, term) == Matching(a[1..], term) + Matching(b, term)
    ensures Matching(a + b, term) == Matching(a, term) + Matching(b, term)
  {
    var head := if Matches(a[0], term) then [a[0]] else [];
    TailOfConcat(a, b);
    assert Matching(a + b, term) == head + Matching(a[1..] + b, term);
    assert Matching(a, term) == head + Matching(a[1..], term);
    ConcatAssoc(head, Matching(a[1..], term), Matching(b, term));
  }

  /** One command is kept exactly when it matches. */
  lemma MatchingOne(c: Command, term: string)
    ensures Matching([c], term) == if Matches(c, term) then [c] else []
  {
    assert [c][1..] == [];
  }

  /** The effect that runs when the input changes. */
  function OnInput(commands: seq<Command>, input: string, prev: Palette): (p: Palette)
    ensures StartsWith(input, "/") ==> p.filtered == Matching(commands, Lower(input[1..])) && p.selected == 0
    ensures p.visible <==> StartsWith(input, "/") && p.filtered != []
    ensures !StartsWith(input, "/") ==> p.filtered == [] && p.selected == prev.selected
  {
    if StartsWith(input, "/") then
      var filtered := Matching(commands, Lower(input[1..]));
      Palette(filtered, |filtered| > 0, 0)
    else Palette([], false, prev.selected)
  }

  /** The keys the palette handles; `Enter` records whether Shift was held. */
  datatype Key = ArrowDown | ArrowUp | Enter(shift: bool) | EscapeKey | OtherKey

  /** The input text, the palette it shows, and the commands chosen so far, in order. */
  datatype Widget = Widget(input: string, palette: Palette, chosen: seq<Command>)

  /**
   * `handleKeyDown` while the palette is shown: the arrows move the
   * selection within the list; Enter without Shift runs the selected
   * command, and it and Escape clear the input, which hides the palette
   * and empties its list. Other keys, Shift+Enter and any key while the
   * palette is hidden leave the palette as it is.
   */
  function Navigate(commands: seq<Command>, w: Widget, key: Key): (r: Widget)
    ensures key.ArrowDown? || key.ArrowUp? ==>
      r.input == w.input && r.chosen == w.chosen && r.palette.filtered == w.palette.filtered && r.palette.visible == w.palette.visible
    ensures var p := w.palette;
      p.visible && p.selected < |p.filtered| && (key.ArrowDown? || key.ArrowUp?) ==> r.palette.selected < |p.filtered|
    ensures var p := w.palette;
      key == ArrowDown && p.visible && p.selected + 1 < |p.filtered| ==> r.palette.selected == p.selected + 1
    ensures var p := w.palette;
      key == ArrowUp && p.visible && p.selected > 0 ==> r.palette.selected == p.selected - 1
    ensures var p := w.palette;
      key == Enter(false) && p.visible && p.selected < |p.filtered| ==>
        r.input == [] && !r.palette.visible && r.palette.filtered == [] && r.chosen == w.chosen + [p.filtered[p.selected]]
    ensures key == EscapeKey && w.palette.visible ==>
      r.input == [] && !r.palette.visible && r.palette.filtered == [] && r.chosen == w.chosen
    ensures key == OtherKey || key == Enter(true) || !w.palette.visible ==> r == w
  {
    var p := w.palette;
    if !p.visible then w
    else
      match key
      case ArrowDown => w.(palette := p.(selected := if p.selected < |p.filtered| - 1 then p.selected + 1 else p.selected))
      case ArrowUp => w.(palette := p.(selected := if p.selected > 0 then p.selected - 1 else p.selected))
      case Enter(shift) =>
        if shift || p.selected >= |p.filtered| then w
        else Widget([], OnInput(commands, [], p.(visible := false)), w.chosen + [p.filtered[p.selected]])
      case EscapeKey => Widget([], OnInput(commands, [], p.(visible := false)), w.chosen)
      case OtherKey => w
  }

  /** A shown palette has its selection on a listed command. */
  predicate InRange(w: Widget) {
    w.palette.visible ==> w.palette.selected < |w.palette.filtered|
  }

  /** Every key keeps the selection of a shown palette on a listed command. */
  lemma NavigateKeepsInRange(commands: seq<Command>, w: Widget, key: Key)
    requires InRange(w)
    ensures InRange(Navigate(commands, w, key))
  {
  }

  /** From any palette the input shows, every key sequence keeps the selection on a listed command. */
  lemma {:induction false} SelectionStaysInRange(commands: seq<Command>, input: string, prev: Palette, chosen: seq<Command>, keys: seq<Key>)
    requires StartsWith(input, "/")
    ensures InRange(NavigateAll(commands, Widget(input, OnInput(commands, input, prev), chosen), keys))
    decreases |keys|
  {
    if keys != [] {
      SelectionStaysInRange(commands, input, prev, chosen, keys[..|keys| - 1]);
      NavigateKeepsInRange(commands, NavigateAll(commands, Widget(input, OnInput(commands, input, prev), chosen), keys[..|keys| - 1]), keys[|keys| - 1]);
    }
  }

  function NavigateAll(commands: seq<Command>, w: Widget, keys: seq<Key>): Widget
    decreases |keys|
  {
    if keys == [] then w else Navigate(commands, NavigateAll(commands, w, keys[..|keys| - 1]), keys[|keys| - 1])
  }

  // ---------------------------------------------------------------- greeting and history

  /** The greeting for an hour of the day (0–23). */
  function Greeting(hour: nat): (g: string)
    ensures 5 <= hour < 12 <==> g == "Good morning."
    ensures 12 <= hour < 17 <==> g == "Good afternoon."
    ensures 17 <= hour < 22 <==> g == "Good evening."
    ensures (hour < 5 || hour >= 22) <==> g == "Still up?"
  {
    if 5 <= hour < 12 then "Good morning."
    else if 12 <= hour < 17 then "Good afternoon."
    else if 17 <= hour < 22 then "Good evening."
    else "Still up?"
  }

  /** `messages.slice(-6)`: the history sent with a question is the last six messages, in order. */
  function HistorySent<T>(messages: seq<T>): (r: seq<T>)
    ensures |r| == if |messages| < 6 then |messages| else 6
    ensures r == messages[|messages| - |r|..]
  {
    ChatRoute.LastN(messages, 6)
  }
}
