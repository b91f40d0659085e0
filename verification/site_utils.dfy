/**
 * The page helpers of lib/utils.ts: the English reading-time label, the
 * `src` values of the `<img>` tags of an HTML text, and the empty case of
 * the date label (the locale rendering itself is a parameter).
 */
module SiteUtils {
  import opened Wrappers
  import opened Strings
  import opened Scan

  // ---------------------------------------------------------------- reading time

  /** `<[^>]*>`: from a `<` to the nearest `>` after it. */
  function HtmlTag(s: string, i: nat): nat {
    if i < |s| && s[i] == '<' then
      match IndexFrom(s, ">", i + 1)
      case Some(j) => j + 1 - i
      case None => 0
    else 0
  }

  /** The class `[#*\`\[\]!]` of markdown marks. */
  predicate IsMarkdownMark(c: char) {
    c == '#' || c == '*' || c == '`' || c == '[' || c == ']' || c == '!'
  }

  function Erase(t: string): string { [] }

  function OneSpace(t: string): string { " " }

  /** Global `replace(/\s+/g, ' ')`. */
  function CollapseSpaces(s: string): string {
    ReplaceAll(s, RunOf(IsSpace, 1), OneSpace).0
  }

  /** The text whose length is measured: tags removed, marks removed, whitespace runs collapsed. */
  function StrippedText(content: string): string {
    CollapseSpaces(DropChars(ReplaceAll(content, HtmlTag, Erase).0, IsMarkdownMark))
  }

  /** `Math.max(1, Math.ceil(chars / 400))`. */
  function ReadingMinutes(chars: nat): (m: nat)
    ensures m >= 1
    ensures chars <= 400 ==> m == 1
    ensures chars > 0 ==> 400 * (m - 1) < chars <= 400 * m
  {
    if chars == 0 then 1 else (chars + 399) / 400
  }

  /** A longer text never reads faster. */
  lemma ReadingMinutesMonotone(a: nat, b: nat)
    requires a <= b
    ensures ReadingMinutes(a) <= ReadingMinutes(b)
  {
  }

  /** `calculateReadingTime`: whole minutes at 400 code units a minute, at least one. */
  function ReadingTime(content: string): (r: string)
    ensures r == NatToString(ReadingMinutes(JsLen(StrippedText(content)))) + " min read"
    ensures EndsWith(r, " min read")
  {
    var minutes := ReadingMinutes(JsLen(StrippedText(content)));
    var r := NatToString(minutes) + " min read";
    assert r[|r| - 9..] == " min read";
    r
  }

  /** The label always names at least one minute: its number reads back as a positive value. */
  lemma ReadingTimeAtLeastOne(content: string)
    ensures var r := ReadingTime(content); var n := r[..|r| - 9];
      (forall k :: 0 <= k < |n| ==> IsDigit(n[k])) && DigitsValue(n) >= 1
  {
    var m := ReadingMinutes(JsLen(StrippedText(content)));
    var r := ReadingTime(content);
    assert r[..|r| - 9] == NatToString(m);
    NatToStringRoundTrip(m);
  }

  // ---------------------------------------------------------------- images

  predicate NotQuote(c: char) { c != '"' }

  predicate NotGt(c: char) { c != '>' }

  /** Length of the value of `src="([^"]+)"` at `p`, 0 when there is none. */
  function SrcValueLen(s: string, p: nat): (n: nat)
    ensures n > 0 ==> p + 5 + n < |s|
  {
    if OccursAt(s, "src=\"", p) then
      var n := RunLen(s, NotQuote, p + 5);
      if n >= 1 && p + 5 + n < |s| then n else 0
    else 0
  }

  /**
   * The last position in `lo..hi` that satisfies `ok`: a greedy `[^>]+`
   * gives back characters from the right until the rest of the pattern
   * matches.
   */
  function LastIn(lo: nat, hi: nat, ok: nat -> bool): (r: Option<nat>)
    ensures r.Some? ==> lo <= r.value <= hi && ok(r.value)
    decreases hi
  {
    if hi < lo then None
    else if ok(hi) then Some(hi)
    else if hi == 0 then None
    else LastIn(lo, hi - 1, ok)
  }

  /** The position found is the last one, and there is none when nothing is found. */
  lemma {:induction false} LastInIsLast(lo: nat, hi: nat, ok: nat -> bool)
    ensures var r := LastIn(lo, hi, ok);
      (r.Some? ==> forall p :: r.value < p <= hi ==> !ok(p)) &&
      (r.None? ==> forall p :: lo <= p <= hi ==> !ok(p))
    decreases hi
  {
    if lo <= hi && !ok(hi) && hi > 0 {
      LastInIsLast(lo, hi - 1, ok);
    }
  }

  /** Whether a `src="…"` attribute begins at a position. */
  function SrcTest(s: string): nat -> bool {
    (p: nat) => SrcValueLen(s, p) > 0
  }

  /** Where the `src` attribute of an `<img[^>]+src="…"` match at `i` begins. */
  function ImgSrcAt(s: string, i: nat): (r: Option<nat>)
    ensures r.Some? ==> i + 5 <= r.value && SrcValueLen(s, r.value) > 0
  {
    if OccursAt(s, "<img", i) then
      var run := RunLen(s, NotGt, i + 4);
      if run >= 1 then LastIn(i + 5, i + 4 + run, SrcTest(s)) else None
    else None
  }

  /** `/<img[^>]+src="([^"]+)"/`: the match runs to the closing quote of the value. */
  function ImgTag(s: string, i: nat): nat {
    match ImgSrcAt(s, i)
    case Some(p) => p + 5 + SrcValueLen(s, p) + 1 - i
    case None => 0
  }

  /** The captured value of the match at `i` (`match[1]`), '' where there is no match. */
  function SrcOf(s: string, i: nat): (v: string)
    ensures ImgSrcAt(s, i).Some? ==> v != [] && '"' !in v
  {
    match ImgSrcAt(s, i)
    case None => []
    case Some(p) =>
      var v := s[p + 5..p + 5 + SrcValueLen(s, p)];
      assert forall k :: 0 <= k < |v| ==> v[k] == s[p + 5 + k];
      v
  }

  /** The captures of the matches of `m` from `i` on, in the order an `exec` loop meets them. */
  function CapturesFrom(s: string, m: Matcher, capture: (string, nat) -> string, i: nat): (r: seq<string>)
    requires i <= |s|
    decreases |s| - i
  {
    if i == |s| then []
    else if MatchAt(s, m, i) then [capture(s, i)] + CapturesFrom(s, m, capture, i + m(s, i))
    else CapturesFrom(s, m, capture, i + 1)
  }

  /** `extractImagesFromHtml`: the `src` value of every `<img>` match, in document order. */
  method ExtractImagesFromHtml(html: string) returns (images: seq<string>)
    ensures images == CapturesFrom(html, ImgTag, SrcOf, 0)
  {
    images := ExecLoop(html, ImgTag, SrcOf);
  }

  /** The `while ((match = regex.exec(s)) !== null)` loop pushing `match[1]`. */
  method ExecLoop(s: string, m: Matcher, capture: (string, nat) -> string) returns (found: seq<string>)
    ensures found == CapturesFrom(s, m, capture, 0)
  {
    found := [];
    var i := 0;
    while i < |s|
      invariant i <= |s|
      invariant found + CapturesFrom(s, m, capture, i) == CapturesFrom(s, m, capture, 0)
      decreases |s| - i
    {
      var len := m(s, i);
      if 0 < len <= |s| - i {
        var next := found + [capture(s, i)];
        assert next + CapturesFrom(s, m, capture, i + len) == found + CapturesFrom(s, m, capture, i) by {
          ConcatAssoc(found, [capture(s, i)], CapturesFrom(s, m, capture, i + len));
        }
        found := next;
        i := i + len;
      } else {
        i := i + 1;
      }
    }
  }

  /** One capture per match of the pattern, each taken at its match. */
  lemma {:induction false} CapturesAreMatches(s: string, m: Matcher, capture: (string, nat) -> string, i: nat)
    requires i <= |s|
    ensures |CapturesFrom(s, m, capture, i)| == |MatchesFrom(s, m, i)|
    ensures forall k :: 0 <= k < |CapturesFrom(s, m, capture, i)| ==>
      CapturesFrom(s, m, capture, i)[k] == capture(s, MatchesFrom(s, m, i)[k].start)
    decreases |s| - i
  {
    if i < |s| {
      if MatchAt(s, m, i) {
        CapturesAreMatches(s, m, capture, i + m(s, i));
      } else {
        CapturesAreMatches(s, m, capture, i + 1);
      }
    }
  }

  /** Every `src` value found is non-empty and holds no quote. */
  lemma ImagesWellFormed(s: string)
    ensures forall k :: 0 <= k < |CapturesFrom(s, ImgTag, SrcOf, 0)| ==>
      var v := CapturesFrom(s, ImgTag, SrcOf, 0)[k]; v != [] && '"' !in v
  {
    CapturesAreMatches(s, ImgTag, SrcOf, 0);
    forall k | 0 <= k < |CapturesFrom(s, ImgTag, SrcOf, 0)|
      ensures ImgSrcAt(s, MatchesFrom(s, ImgTag, 0)[k].start).Some?
    {
      var j := MatchesFrom(s, ImgTag, 0)[k].start;
      assert MatchAt(s, ImgTag, j);
    }
  }

  /** A text without `<img` has no images. */
  lemma {:induction false} NoImgNoImages(s: string, i: nat)
    requires i <= |s|
    requires !Contains(s, "<img")
    ensures CapturesFrom(s, ImgTag, SrcOf, i) == []
    decreases |s| - i
  {
    if i < |s| {
      assert !OccursAt(s, "<img", i);
      NoImgNoImages(s, i + 1);
    }
  }

  /** A lone `<img src="v">` yields exactly `v` (for a value without quotes, `>` or `=`). */
  lemma ImgRoundTrip(v: string)
    requires v != [] && '"' !in v && '>' !in v && '=' !in v
    ensures CapturesFrom("<img src=\"" + v + "\">", ImgTag, SrcOf, 0) == [v]
  {
    var s := "<img src=\"" + v + "\">";
    var n := |v|;
    LoneImgMatch(v);
    assert ImgTag(s, 0) == n + 11;
    assert !OccursAt(s, "<img", n + 11);
    assert CapturesFrom(s, ImgTag, SrcOf, n + 12) == [];
    assert CapturesFrom(s, ImgTag, SrcOf, n + 11) == [];
  }

  /** The match at the start of a lone tag: its attribute begins at 5 and its value is `v`. */
  lemma LoneImgMatch(v: string)
    requires v != [] && '"' !in v && '>' !in v && '=' !in v
    ensures var s := "<img src=\"" + v + "\">";
      ImgSrcAt(s, 0) == Some(5) && SrcValueLen(s, 5) == |v| && SrcOf(s, 0) == v
  {
    var s := "<img src=\"" + v + "\">";
    var n := |v|;
    LoneImgShape(v);
    LoneImgValue(v);
    LoneImgNoLaterSrc(v);
    RunLenOver(s, NotGt, 4, n + 7);
    var ok := SrcTest(s);
    assert ok(5);
    LastInIsLast(5, n + 11, ok);

    assert OccursAt(s, "<img", 0);
  }

  /** The attribute at 5 holds the whole value. */
  lemma LoneImgValue(v: string)
    requires v != [] && '"' !in v
    ensures SrcValueLen("<img src=\"" + v + "\">", 5) == |v|
  {
    var s := "<img src=\"" + v + "\">";
    LoneImgShape(v);
    RunLenOver(s, NotQuote, 10, |v|);
    assert OccursAt(s, "src=\"", 5);
  }

  /** No attribute begins after 5: it would need an `=` inside the value. */
  lemma LoneImgNoLaterSrc(v: string)
    requires '=' !in v
    ensures forall p :: 5 < p <= |v| + 11 ==> SrcValueLen("<img src=\"" + v + "\">", p) == 0
  {
    var s := "<img src=\"" + v + "\">";
    LoneImgShape(v);
    forall p | 5 < p <= |v| + 11
      ensures !OccursAt(s, "src=\"", p)
    {
      if p + 5 <= |s| {
        assert s[p + 3] != '=';
      }
    }
  }

  /** The characters of a lone tag. */
  lemma LoneImgShape(v: string)
    ensures var s := "<img src=\"" + v + "\">";
      |s| == |v| + 12 && s[..4] == "<img" && s[4] == ' ' && s[5..10] == "src=\"" && s[8] == '=' &&
      (forall k :: 0 <= k < |v| ==> s[10 + k] == v[k]) && s[10 + |v|] == '"' && s[11 + |v|] == '>' &&
      s[10..10 + |v|] == v
  {
  }

  // ---------------------------------------------------------------- dates

  /**
   * `formatDate`: the empty string stays empty; a `Y-M-D` string is shown
   * through the locale rendering of its three parts, anything else through
   * the locale rendering of the parsed time, or as '' when it does not
   * parse. The renderings and the parse are given.
   */
  function FormatDate(dateStr: string, showParts: seq<string> -> string, parsed: Option<int>, showTime: int -> string): (r: string)
    ensures dateStr == [] ==> r == []
    ensures dateStr != [] && |SplitBy(dateStr, c => c == '-')| != 3 && parsed.None? ==> r == []
  {
    if dateStr == [] then []
    else
      var parts := SplitBy(dateStr, c => c == '-');
      if |parts| == 3 then showParts(parts)
      else match parsed
        case None => []
        case Some(t) => showTime(t)
  }
}
