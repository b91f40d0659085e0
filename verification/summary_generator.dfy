/**
 * The structured news summary (lib/utils/summary-generator.ts): an
 * article's category picks one of three template sets, the article's
 * relevance score and sentiment pick one template of the set, and the
 * chosen template is rendered as a hook line, bullet lines and an impact
 * line. A separate check reports which principles of a good summary a
 * text shows. The wording of the templates, with the random figures and
 * the current quarter and year they quote, is given as a parameter.
 */
module SummaryGenerator {
  import opened Wrappers
  import opened Strings
  import opened Scan
  import opened Documents
  import opened Sorting
  import CategoryPrompts

  datatype Sentiment = Positive | Negative | Neutral

  /** The fields of an `Article` the generator reads. */
  datatype Article = Article(
    id: string,
    title: string,
    source: Field,
    category: Field,
    keywords: Option<seq<string>>,
    sentiment: Option<Sentiment>,
    relevanceScore: Option<real>)

  // ---------------------------------------------------------------- template set

  datatype TemplateSet = TechSet | BusinessSet | GeneralSet

  /** `article.category?.toLowerCase() || 'general'` and the `switch` on it. */
  function TemplateSetFor(category: Field): (t: TemplateSet)
    ensures t == TechSet <==> Truthy(category) && Lower(category.text) == "technology"
    ensures t == BusinessSet <==> Truthy(category) && Lower(category.text) == "business"
  {
    var key := if Truthy(category) then Lower(category.text) else "general";
    if key == "technology" then TechSet
    else if key == "business" then BusinessSet
    else GeneralSet
  }

  /** Letter case does not matter: texts equal up to case pick the same set. */
  lemma IgnoresCase(s: string, t: string)
    requires s != [] && Lower(s) == Lower(t)
    ensures TemplateSetFor(Str(s)) == TemplateSetFor(Str(t))
  {
    assert |t| == |s|;
  }

  /** Nothing is trimmed: a category that starts with whitespace picks the general set. */
  lemma NotTrimmed(s: string)
    requires s != [] && IsSpace(s[0])
    ensures TemplateSetFor(Str(s)) == GeneralSet
  {
    assert Lower(s)[0] == s[0];
    assert "technology"[0] == 't' && "business"[0] == 'b';
  }

  /**
   * The category prompts read `tech` as technology, but the template
   * choice does not: the same article gets technology prompts and general
   * templates.
   */
  lemma AliasIsNotATemplateSet()
    ensures CategoryPrompts.NormalizeCategory(Str("tech")) == Some(CategoryPrompts.Technology)
    ensures TemplateSetFor(Str("tech")) == GeneralSet
  {
    CategoryPrompts.WordAsGiven("tech");
    assert |Lower("tech")| == 4;
  }

  // ---------------------------------------------------------------- key information of a title

  predicate IsQuote(c: char) { c == '"' || c == '\'' }

  predicate NotQuote(c: char) { !IsQuote(c) }

  /** The separators of `/[:\-–—]/`. */
  predicate IsDash(c: char) { c == ':' || c == '-' || c == '–' || c == '—' }

  predicate IsBlank(c: char) { c == ' ' }

  /** `/["']([^"']+)["']/` matches at `i`: a quote, at least one other character, a quote. */
  predicate QuotedAt(s: string, i: nat) {
    i < |s| && IsQuote(s[i]) && RunLen(s, NotQuote, i + 1) > 0 && i + 1 + RunLen(s, NotQuote, i + 1) < |s|
  }

  /** The leftmost match of the quoted pattern at or after `i`. */
  function FirstQuoted(s: string, i: nat): (r: Option<nat>)
    requires i <= |s|
    ensures r.Some? ==> i <= r.value && QuotedAt(s, r.value)
    ensures r.Some? ==> forall k :: i <= k < r.value ==> !QuotedAt(s, k)
    ensures r.None? ==> forall k :: i <= k ==> !QuotedAt(s, k)
    decreases |s| - i
  {
    if i == |s| then None
    else if QuotedAt(s, i) then Some(i)
    else FirstQuoted(s, i + 1)
  }

  /** `extractKeyInfo`. */
  function ExtractKeyInfo(title: string): string {
    match FirstQuoted(title, 0)
    case Some(i) => title[i + 1..i + 1 + RunLen(title, NotQuote, i + 1)]
    case None =>
      var parts := SplitBy(title, IsDash);
      if |parts| > 1 then
        Trim(parts[|parts| - 1])
      else if JsLen(title) > 30 then
        Join(Take(SplitBy(title, IsBlank), 5), " ")
      else
        title
  }

  /** The last piece of a split is the text after the last separator, or the whole text when there is none. */
  lemma {:induction false} SplitFromLast(s: string, isSep: char -> bool, start: nat, i: nat) returns (off: nat)
    requires start <= i <= |s|
    requires forall j :: start <= j < i ==> !isSep(s[j])
    ensures LastPieceAt(s, isSep, start, Strings.SplitFrom(s, isSep, start, i), off)
    decreases |s| - i
  {
    if i == |s| {
      off := start;
    } else if isSep(s[i]) {
      off := SplitFromLast(s, isSep, i + 1, i + 1);
      LastPieceAtSep(s, isSep, start, i, off);
    } else {
      off := SplitFromLast(s, isSep, start, i + 1);
      assert Strings.SplitFrom(s, isSep, start, i) == Strings.SplitFrom(s, isSep, start, i + 1);
    }
  }

  /**
   * `s[off..]` is the last piece of the split `r` of the text from `start`,
   * and it follows a separator exactly when there are several pieces.
   */
  ghost predicate LastPieceAt(s: string, isSep: char -> bool, start: nat, r: seq<string>, off: nat) {
    && start <= off <= |s|
    && |r| >= 1
    && r[|r| - 1] == s[off..]
    && (|r| > 1 ==> start < off && isSep(s[off - 1]))
    && (|r| == 1 ==> off == start)
  }

  /** A separator at `i` starts a new piece: the last piece of the rest is the last piece of the whole. */
  lemma LastPieceAtSep(s: string, isSep: char -> bool, start: nat, i: nat, off: nat)
    requires start <= i < |s| && isSep(s[i])
    requires forall j :: start <= j < i ==> !isSep(s[j])
    requires LastPieceAt(s, isSep, i + 1, Strings.SplitFrom(s, isSep, i + 1, i + 1), off)
    ensures LastPieceAt(s, isSep, start, Strings.SplitFrom(s, isSep, start, i), off)
  {
    var rest := Strings.SplitFrom(s, isSep, i + 1, i + 1);
    var r := [s[start..i]] + rest;
    assert Strings.SplitFrom(s, isSep, start, i) == r;
    assert r[|r| - 1] == rest[|rest| - 1];
    if |rest| == 1 {
      assert off == i + 1;
    }
  }

  /** A title without a quoted run is split at every dash; a title with a dash gives the trimmed text after its last dash. */
  lemma KeyInfoAfterLastDash(title: string, j: nat)
    requires FirstQuoted(title, 0).None?
    requires j < |title| && IsDash(title[j])
    requires forall k :: j < k < |title| ==> !IsDash(title[k])
    ensures ExtractKeyInfo(title) == Trim(title[j + 1..])
  {
    PiecesAfterLastDash(title, j);
  }

  /** With a dash at `j` and none after it, the split has several pieces and the last is the text after `j`. */
  lemma PiecesAfterLastDash(title: string, j: nat)
    requires j < |title| && IsDash(title[j])
    requires forall k :: j < k < |title| ==> !IsDash(title[k])
    ensures |SplitBy(title, IsDash)| > 1
    ensures SplitBy(title, IsDash)[|SplitBy(title, IsDash)| - 1] == title[j + 1..]
  {
    var parts := SplitBy(title, IsDash);
    var off := SplitFromLast(title, IsDash, 0, 0);
    var last := parts[|parts| - 1];
    assert forall m :: 0 <= m < |last| ==> !IsDash(last[m]);
    LastDash(title, last, off, j);
  }

  /** Two last dashes are the same dash. */
  lemma LastDash(title: string, last: string, off: nat, j: nat)
    requires off <= |title| && last == title[off..]
    requires off > 0 ==> IsDash(title[off - 1])
    requires forall m :: 0 <= m < |last| ==> !IsDash(last[m])
    requires j < |title| && IsDash(title[j])
    requires forall k :: j < k < |title| ==> !IsDash(title[k])
    ensures j == off - 1
  {
  }

  /** A title without quotes or dashes keeps at most its first five space-separated words, and a short title is kept whole. */
  lemma KeyInfoFirstWords(title: string)
    requires FirstQuoted(title, 0).None?
    requires forall k :: 0 <= k < |title| ==> !IsDash(title[k])
    ensures JsLen(title) <= 30 ==> ExtractKeyInfo(title) == title
    ensures JsLen(title) > 30 ==> StartsWith(title, ExtractKeyInfo(title))
    ensures JsLen(title) > 30 ==> SplitBy(ExtractKeyInfo(title), IsBlank) == Take(SplitBy(title, IsBlank), 5)
  {
    var off := SplitFromLast(title, IsDash, 0, 0);
    assert |SplitBy(title, IsDash)| == 1;
    if JsLen(title) > 30 {
      var words := SplitBy(title, IsBlank);
      var first := Take(words, 5);
      SplitJoin(title, ' ', IsBlank);
      JoinPrefix(words, |first|, " ");
      forall k | 0 <= k < |first|
        ensures ' ' !in first[k]
      {
        assert first[k] == words[k];
        assert forall m :: 0 <= m < |words[k]| ==> !IsBlank(words[k][m]);
      }
      SplitJoined(first, ' ', IsBlank);
    }
  }

  /** The key information is always a piece of the title. */
  lemma KeyInfoIsPart(title: string)
    ensures Contains(title, ExtractKeyInfo(title))
  {
    var r := ExtractKeyInfo(title);
    match FirstQuoted(title, 0)
    case Some(i) =>
      assert OccursAt(title, r, i + 1);
    case None =>
      var parts := SplitBy(title, IsDash);
      if |parts| > 1 {
        var off := SplitFromLast(title, IsDash, 0, 0);
        TrimOfSuffixOccurs(title, off);
      } else if JsLen(title) > 30 {
        var words := SplitBy(title, IsBlank);
        SplitJoin(title, ' ', IsBlank);
        JoinPrefix(words, |Take(words, 5)|, " ");
        assert OccursAt(title, r, 0);
      } else {
        assert OccursAt(title, r, 0);
      }
  }

  /** The trimmed text after a position occurs in the text. */
  lemma TrimOfSuffixOccurs(s: string, off: nat)
    requires off <= |s|
    ensures Contains(s, Trim(s[off..]))
  {
    var last := s[off..];
    var r := Trim(last);
    TrimSlice(last);
    assert r == s[off + Leading(last)..off + Leading(last) + |r|];
    assert OccursAt(s, r, off + Leading(last));
  }

  /** A quoted run wins: the text between the first pair of quotes, without quotes and never empty. */
  lemma KeyInfoQuoted(title: string, i: nat)
    requires FirstQuoted(title, 0) == Some(i)
    ensures var r := ExtractKeyInfo(title);
      r != [] && OccursAt(title, r, i + 1) && IsQuote(title[i]) && IsQuote(title[i + 1 + |r|]) &&
      (forall k :: 0 <= k < |r| ==> !IsQuote(r[k])) &&
      (forall k :: 0 <= k < i ==> !QuotedAt(title, k))
  {
    var r := ExtractKeyInfo(title);
    var n := RunLen(title, NotQuote, i + 1);
    assert r == title[i + 1..i + 1 + n];
    forall k | 0 <= k < |r|
      ensures !IsQuote(r[k])
    {
      assert r[k] == title[i + 1 + k];
      assert NotQuote(title[i + 1 + k]);
    }
    assert !NotQuote(title[i + 1 + n]);
  }

  // ---------------------------------------------------------------- template choice

  /** `article.relevance_score || 0.5`: a missing or zero score counts as one half. */
  function EffectiveScore(score: Option<real>): (s: real)
    ensures score.Some? && score.value != 0.0 ==> s == score.value
    ensures score.None? || score.value == 0.0 ==> s == 0.5
  {
    if score.Some? && score.value != 0.0 then score.value else 0.5
  }

  /** `selectTemplateByRelevance`'s index among `n` templates; it may fall outside them. */
  function TemplateIndex(score: real, negative: bool, n: nat): int {
    var index := (score * (n as real - 1.0)).Floor;
    if negative then (if index + 1 < n - 1 then index + 1 else n - 1) else index
  }

  /** The index the article selects. */
  function ArticleIndex(article: Article, n: nat): int {
    TemplateIndex(EffectiveScore(article.relevanceScore), article.sentiment == Some(Negative), n)
  }

  /** `Math.floor` of twice a number. */
  lemma FloorTwice(s: real)
    ensures (s * 2.0).Floor >= 0 <==> s >= 0.0
    ensures (s * 2.0).Floor >= -1 <==> s >= -0.5
    ensures (s * 2.0).Floor < 3 <==> s < 1.5
  {
  }

  /**
   * With the three templates of every set, a neutral or positive article
   * finds a template exactly when its score lies in [0, 1.5), and a
   * negative one exactly when its score is at least -0.5.
   */
  lemma IndexInRange(score: real, negative: bool)
    ensures 0 <= TemplateIndex(score, negative, 3) < 3 <==>
      if negative then score >= -0.5 else 0.0 <= score < 1.5
  {
    FloorTwice(score);
    assert score * (3 as real - 1.0) == score * 2.0;
  }

  /** Any score from 0 to 1, the range a relevance score is meant to have, finds a template. */
  lemma UnitScoreInRange(score: Option<real>, negative: bool)
    requires score.Some? ==> 0.0 <= score.value <= 1.0
    ensures 0 <= TemplateIndex(EffectiveScore(score), negative, 3) < 3
  {
    IndexInRange(EffectiveScore(score), negative);
  }

  /** A higher score never picks an earlier template. */
  lemma IndexMonotone(s: real, t: real, negative: bool, n: nat)
    requires s <= t && 1 <= n
    ensures TemplateIndex(s, negative, n) <= TemplateIndex(t, negative, n)
  {
    var k := n as real - 1.0;
    if n > 1 {
      assert t * k - s * k == (t - s) * k;
      ProductNonNegative(t - s, k);
      FloorMonotone(s * k, t * k);
    }
  }

  lemma ProductNonNegative(a: real, b: real)
    requires a >= 0.0 && b >= 0.0
    ensures a * b >= 0.0
  {
  }

  lemma FloorMonotone(a: real, b: real)
    requires a <= b
    ensures a.Floor <= b.Floor
  {
  }

  /** Negative news moves one template on, but never past the last one. */
  lemma NegativeMovesOn(score: real, n: nat)
    requires 0 <= TemplateIndex(score, false, n) < n
    ensures TemplateIndex(score, true, n) == if TemplateIndex(score, false, n) + 1 < n then TemplateIndex(score, false, n) + 1 else n - 1
    ensures TemplateIndex(score, false, n) <= TemplateIndex(score, true, n) < n
  {
  }

  /** A missing score picks the middle template, and the last one for negative news. */
  lemma DefaultScoreIndices(article: Article)
    requires article.relevanceScore.None?
    ensures ArticleIndex(article, 3) == if article.sentiment == Some(Negative) then 2 else 1
  {
    assert 0.5 * (3 as real - 1.0) == 1.0;
  }

  // ---------------------------------------------------------------- inputs and wording

  /** `getSentimentPercent`: the percentage of positive expert reviews quoted for a sentiment. */
  function SentimentPercent(s: Option<Sentiment>): nat {
    match s
    case Some(Positive) => 85
    case Some(Negative) => 35
    case _ => 60
  }

  /** The percentages rank the sentiments, with a missing one counted as neutral. */
  lemma SentimentRanks(s: Option<Sentiment>)
    ensures SentimentPercent(Some(Negative)) < SentimentPercent(None) < SentimentPercent(Some(Positive))
    ensures SentimentPercent(s) == SentimentPercent(None) <==> s != Some(Positive) && s != Some(Negative)
    ensures 35 <= SentimentPercent(s) <= 85
  {
  }

  /** What the templates quote from an article. */
  datatype Inputs = Inputs(title: string, company: string, keywords: seq<string>, sentimentPercent: nat)

  /** The steps every `generate…Summary` shares before it writes its templates. */
  function InputsFor(article: Article, kind: TemplateSet): (x: Inputs)
    ensures x.title == ExtractKeyInfo(article.title)
    ensures |x.keywords| <= 3
    ensures article.keywords.Some? ==> |x.keywords| <= |article.keywords.value| && x.keywords == article.keywords.value[..|x.keywords|]
    ensures article.keywords.Some? && |article.keywords.value| >= 3 ==> |x.keywords| == 3
    ensures article.keywords.None? ==> x.keywords == []
    ensures Truthy(article.source) ==> x.company == article.source.text
    ensures !Truthy(article.source) && kind == GeneralSet ==> x.company == "관계 당국"
    ensures !Truthy(article.source) && kind != GeneralSet ==> x.company == "해당 기업"
  {
    Inputs(
      ExtractKeyInfo(article.title),
      OrElse(article.source, if kind == GeneralSet then "관계 당국" else "해당 기업"),
      if article.keywords.Some? then Take(article.keywords.value, 3) else [],
      SentimentPercent(article.sentiment))
  }

  /** A template before it is rendered. */
  datatype Draft = Draft(hook: string, bullets: seq<string>, impact: string)

  /** The template texts of a set for given inputs (three of them in every set). */
  type Wording = (TemplateSet, Inputs) -> seq<Draft>

  // ---------------------------------------------------------------- rendering

  const Pin: string := "📍 "

  /** `formatStructuredSummary`. */
  function Format(hook: string, bullets: seq<string>, impact: string): string {
    Pin + hook + "\n\n" + Join(bullets, "\n") + "\n\n" + impact
  }

  /** A summary returned by the generator; `formatted` is set once a template is chosen. */
  class StructuredSummary {
    var hook: string
    var bullets: seq<string>
    var impact: string
    var formatted: string

    /** One object literal of the `templates` array. */
    constructor (d: Draft)
      ensures hook == d.hook && bullets == d.bullets && impact == d.impact && formatted == ""
    {
      hook := d.hook;
      bullets := d.bullets;
      impact := d.impact;
      formatted := "";
    }

    /** `selected.formatted = formatStructuredSummary(selected)`. */
    method Render()
      modifies this
      ensures formatted == Format(hook, bullets, impact)
      ensures hook == old(hook) && bullets == old(bullets) && impact == old(impact)
    {
      formatted := Format(hook, bullets, impact);
    }
  }

  /**
   * `generateStructuredSummary`: the chosen template of the article's set,
   * rendered. When the index misses the templates, `selected` is
   * `undefined` and setting its `formatted` throws.
   */
  method GenerateStructured(article: Article, wording: Wording) returns (r: Result<StructuredSummary>)
    ensures var drafts := wording(TemplateSetFor(article.category), InputsFor(article, TemplateSetFor(article.category)));
      var index := ArticleIndex(article, |drafts|);
      (r.Ok? <==> 0 <= index < |drafts|) &&
      (r.Ok? ==> fresh(r.value)) &&
      (r.Ok? ==> r.value.hook == drafts[index].hook && r.value.bullets == drafts[index].bullets) &&
      (r.Ok? ==> r.value.impact == drafts[index].impact) &&
      (r.Ok? ==> r.value.formatted == Format(drafts[index].hook, drafts[index].bullets, drafts[index].impact))
  {
    var kind := TemplateSetFor(article.category);
    var templates := wording(kind, InputsFor(article, kind));
    var index := ArticleIndex(article, |templates|);
    if !(0 <= index < |templates|) {
      return Failed("Cannot set properties of undefined (setting 'formatted')");
    }
    // Only the selected literal outlives the call, so only it is built.
    var selected := new StructuredSummary(templates[index]);
    selected.Render();
    return Ok(selected);
  }

  /** `generateSmartSummary`: the rendered text of the structured summary. */
  method GenerateSmart(article: Article, wording: Wording) returns (r: Result<string>)
    ensures var drafts := wording(TemplateSetFor(article.category), InputsFor(article, TemplateSetFor(article.category)));
      var index := ArticleIndex(article, |drafts|);
      (r.Ok? <==> 0 <= index < |drafts|) &&
      (r.Ok? ==> r.value == Format(drafts[index].hook, drafts[index].bullets, drafts[index].impact))
  {
    var structured := GenerateStructured(article, wording);
    if structured.Failed? {
      return Failed(structured.message);
    }
    return Ok(structured.value.formatted);
  }

  // ---------------------------------------------------------------- validation

  predicate IsNewline(c: char) { c == '\n' }

  predicate HasDigit(s: string) { exists c :: c in s && IsDigit(c) }

  /** `summary.split('\n')[0]`. */
  function FirstLine(s: string): string { SplitBy(s, IsNewline)[0] }

  /** The hook principle: the first line holds the pin and is longer than 20 UTF-16 units. */
  predicate HookOk(summary: string) {
    '📍' in FirstLine(summary) && JsLen(FirstLine(summary)) > 20
  }

  /** The facts principle: a digit (`/\d+/`) and a bullet sign. */
  predicate FactsOk(summary: string) { HasDigit(summary) && '•' in summary }

  /** The context principle: `/때문|으로|인해/`. */
  predicate ContextOk(summary: string) {
    Includes(summary, "때문") || Includes(summary, "으로") || Includes(summary, "인해")
  }

  /** The actionable principle: `/예상|전망|필요/`. */
  predicate ActionableOk(summary: string) {
    Includes(summary, "예상") || Includes(summary, "전망") || Includes(summary, "필요")
  }

  /** The five principles `validateSummary` reports. */
  datatype Principles = Principles(hook: bool, facts: bool, context: bool, implications: bool, actionable: bool)

  /** `validateSummary`. */
  function ValidateSummary(summary: string): (p: Principles)
    ensures p.hook ==> '📍' in summary && JsLen(summary) > 20
    ensures p.implications <==> '→' in summary
    ensures p.facts <==> FactsOk(summary)
  {
    FirstLineIsPrefix(summary);
    Principles(HookOk(summary), FactsOk(summary), ContextOk(summary), '→' in summary, ActionableOk(summary))
  }

  /** The first line is the text up to the first line break. */
  lemma FirstLineIsPrefix(s: string)
    ensures StartsWith(s, FirstLine(s))
    ensures '\n' !in FirstLine(s)
    ensures JsLen(FirstLine(s)) <= JsLen(s)
  {
    SplitJoin(s, '\n', IsNewline);
    var lines := SplitBy(s, IsNewline);
    JoinPrefix(lines, 1, "\n");
    assert lines[..1] == [lines[0]];
    assert forall m :: 0 <= m < |lines[0]| ==> !IsNewline(lines[0][m]);
    assert s == lines[0] + s[|lines[0]|..];
    JsLenAppend(lines[0], s[|lines[0]|..]);
  }

  /** Lines joined at `nl`, with a blank line after the first and before the last. */
  lemma JoinLines(first: string, bullets: seq<string>, last: string, nl: string)
    requires bullets != []
    ensures first + nl + nl + Join(bullets, nl) + nl + nl + last == Join([first, ""] + bullets + ["", last], nl)
  {
    var head := [first, ""];
    var tail := ["", last];
    assert Join(tail, nl) == nl + last;
    assert Join(head, nl) == first + nl;
    JoinAppend(bullets, tail, nl);
    JoinAppend(head, bullets + tail, nl);
    assert head + bullets + tail == head + (bullets + tail);
  }

  /** The rendered text is its lines joined by line breaks: hook, a blank line, the bullets, a blank line, the impact. */
  lemma FormatAsJoin(hook: string, bullets: seq<string>, impact: string)
    requires bullets != []
    ensures Format(hook, bullets, impact) == Join([Pin + hook, ""] + bullets + ["", impact], "\n")
  {
    var nl := "\n";
    JoinLines(Pin + hook, bullets, impact, nl);
    assert "\n\n" == nl + nl;
  }

  /** Splitting the rendered text at line breaks gives its lines back, when no part has a line break of its own. */
  lemma FormatLines(hook: string, bullets: seq<string>, impact: string)
    requires bullets != []
    requires '\n' !in hook && '\n' !in impact
    requires forall k :: 0 <= k < |bullets| ==> '\n' !in bullets[k]
    ensures SplitBy(Format(hook, bullets, impact), IsNewline) == [Pin + hook, ""] + bullets + ["", impact]
  {
    var parts := [Pin + hook, ""] + bullets + ["", impact];
    forall k | 0 <= k < |parts|
      ensures '\n' !in parts[k]
    {
      if k == 0 {
        assert parts[0] == Pin + hook;
        assert '\n' !in Pin;
      } else if 2 <= k < |parts| - 2 {
        assert parts[k] == bullets[k - 2];
      }
    }
    FormatAsJoin(hook, bullets, impact);
    SplitJoined(parts, '\n', IsNewline);
  }

  /** A character of one piece is a character of the joined text. */
  lemma {:induction false} InJoin(parts: seq<string>, k: nat, c: char, sep: string)
    requires k < |parts| && c in parts[k]
    ensures c in Join(parts, sep)
    decreases k
  {
    if k > 0 {
      InJoin(parts[1..], k - 1, c, sep);
    }
  }

  /** The pin and its space count 3 UTF-16 units. */
  lemma PinnedLength(hook: string)
    ensures JsLen(Pin + hook) == JsLen(hook) + 3
    ensures '📍' in Pin + hook
  {
    JsLenAppend(Pin, hook);
    assert JsLen(Pin) == 3;
    assert (Pin + hook)[0] == '📍';
  }

  /** The hook check of a rendered template looks at the hook alone: it passes exactly when the hook is longer than 17 UTF-16 units. */
  lemma HookOfRendered(hook: string, bullets: seq<string>, impact: string)
    requires bullets != []
    requires '\n' !in hook && '\n' !in impact
    requires forall j :: 0 <= j < |bullets| ==> '\n' !in bullets[j]
    ensures ValidateSummary(Format(hook, bullets, impact)).hook <==> JsLen(hook) > 17
  {
    FormatLines(hook, bullets, impact);
    assert FirstLine(Format(hook, bullets, impact)) == Pin + hook;
    PinnedLength(hook);
  }

  /** Every character of the bullets is in the rendered text. */
  lemma BulletInRendered(hook: string, bullets: seq<string>, impact: string, k: nat, c: char)
    requires k < |bullets| && c in bullets[k]
    ensures c in Format(hook, bullets, impact)
  {
    InJoin(bullets, k, c, "\n");
  }

  /** An impact line with an arrow, and a bullet with a bullet sign and a digit, make a rendered template show implications and facts. */
  lemma PrinciplesOfRendered(hook: string, bullets: seq<string>, impact: string, k: nat)
    requires k < |bullets|
    ensures '→' in impact ==> ValidateSummary(Format(hook, bullets, impact)).implications
    ensures '•' in bullets[k] && HasDigit(bullets[k]) ==> ValidateSummary(Format(hook, bullets, impact)).facts
  {
    if '•' in bullets[k] && HasDigit(bullets[k]) {
      var d :| d in bullets[k] && IsDigit(d);
      BulletInRendered(hook, bullets, impact, k, '•');
      BulletInRendered(hook, bullets, impact, k, d);
    }
  }
}
