/**
 * The markdown post store (lib/markdown.ts): Obsidian syntax is rewritten
 * to plain markdown, each file becomes a post with a preview, a Korean
 * reading-time label and front-matter defaults, and the post list is
 * sorted, filtered for pinned posts, tags and search. Reading the files
 * and rendering HTML are not modelled: a file is given as its name, its
 * front matter and its body.
 */
module Markdown {
  import opened Wrappers
  import opened Strings
  import opened Scan
  import opened Sorting
  import opened Documents
  import opened Posts
  import SiteUtils

  // ---------------------------------------------------------------- plain text and reading time

  predicate IsNewline(c: char) { c == '\n' }

  /** `content.replace(/[#*`\[\]!]/g, '').replace(/\n+/g, ' ')`. */
  function PlainText(content: string): string {
    ReplaceAll(DropChars(content, SiteUtils.IsMarkdownMark), RunOf(IsNewline, 1), SiteUtils.OneSpace).0
  }

  /** A pass whose replacements avoid a class of characters leaves none of them behind when every character of the class starts a match. */
  lemma {:induction false} ReplaceClears(s: string, m: Matcher, f: string -> string, bad: char -> bool, i: nat)
    requires i <= |s|
    requires forall j :: i <= j < |s| && bad(s[j]) ==> MatchAt(s, m, j)
    requires forall t :: forall c :: c in f(t) ==> !bad(c)
    ensures forall c :: c in ReplaceAllFrom(s, m, f, i).0 ==> !bad(c)
    decreases |s| - i
  {
    if i < |s| {
      if MatchAt(s, m, i) {
        ReplaceClears(s, m, f, bad, i + m(s, i));
      } else {
        ReplaceClears(s, m, f, bad, i + 1);
      }
    }
  }

  /** The plain text has no markdown marks and no line breaks. */
  lemma PlainTextIsPlain(content: string)
    ensures forall c :: c in PlainText(content) ==> !SiteUtils.IsMarkdownMark(c) && c != '\n'
  {
    var d := DropChars(content, SiteUtils.IsMarkdownMark);
    var m := RunOf(IsNewline, 1);
    RunsStartAt(d, IsNewline);
    ReplaceClears(d, m, SiteUtils.OneSpace, IsNewline, 0);
    ReplaceKeepsOut(d, m, SiteUtils.OneSpace, SiteUtils.IsMarkdownMark, 0);
  }

  /** Every character of a class begins a run of at least one. */
  lemma RunsStartAt(s: string, p: char -> bool)
    ensures forall j :: 0 <= j < |s| && p(s[j]) ==> MatchAt(s, RunOf(p, 1), j)
  {
    forall j | 0 <= j < |s| && p(s[j])
      ensures MatchAt(s, RunOf(p, 1), j)
    {
      assert RunLen(s, p, j) >= 1;
    }
  }

  /** A pass whose input and replacements avoid a class of characters produces none of them. */
  lemma {:induction false} ReplaceKeepsOut(s: string, m: Matcher, f: string -> string, bad: char -> bool, i: nat)
    requires i <= |s|
    requires forall j :: i <= j < |s| ==> !bad(s[j])
    requires forall t :: forall c :: c in f(t) ==> !bad(c)
    ensures forall c :: c in ReplaceAllFrom(s, m, f, i).0 ==> !bad(c)
    decreases |s| - i
  {
    if i < |s| {
      if MatchAt(s, m, i) {
        ReplaceKeepsOut(s, m, f, bad, i + m(s, i));
      } else {
        ReplaceKeepsOut(s, m, f, bad, i + 1);
      }
    }
  }

  /** `calculateReadingTime`: whole minutes at 400 code units of plain text a minute. */
  function ReadingTime(content: string): (r: string)
    ensures EndsWith(r, "분 읽기")
  {
    var r := NatToString(SiteUtils.ReadingMinutes(JsLen(PlainText(content)))) + "분 읽기";
    assert r[|r| - 4..] == "분 읽기";
    r
  }

  /** The label's number reads back as the minutes of the plain text, never less than one. */
  lemma ReadingTimeMinutes(content: string)
    ensures var r := ReadingTime(content); var n := r[..|r| - 4];
      (forall k :: 0 <= k < |n| ==> IsDigit(n[k])) &&
      DigitsValue(n) == SiteUtils.ReadingMinutes(JsLen(PlainText(content))) && DigitsValue(n) >= 1
  {
    var m := SiteUtils.ReadingMinutes(JsLen(PlainText(content)));
    var r := ReadingTime(content);
    assert r[..|r| - 4] == NatToString(m);
    NatToStringRoundTrip(m);
  }

  // ---------------------------------------------------------------- Obsidian syntax

  predicate NotCloseOrBar(c: char) { c != ']' && c != '|' }

  predicate NotClose(c: char) { c != ']' }

  /** `\[\[([^\]|]+)(?:\|([^\]]+))?\]\]`: a link, an optional alias after `|`, and the closing brackets. */
  function WikiLink(s: string, i: nat): nat {
    if OccursAt(s, "[[", i) then
      var l := RunLen(s, NotCloseOrBar, i + 2);
      if l == 0 then 0
      else if i + 2 + l < |s| && s[i + 2 + l] == '|' then
        var a := RunLen(s, NotClose, i + 3 + l);
        if a >= 1 && OccursAt(s, "]]", i + 3 + l + a) then l + a + 5 else 0
      else if OccursAt(s, "]]", i + 2 + l) then l + 4 else 0
    else 0
  }

  function Dash(t: string): string { "-" }

  /** `link.toLowerCase().replace(/\s+/g, '-')`. */
  function Slug(link: string): string {
    ReplaceAll(Lower(link), RunOf(IsSpace, 1), Dash).0
  }

  /** The link and the alias of a matched `[[link|alias]]`: the alias starts after the first `|`. */
  function LinkParts(t: string): (string, Option<string>) {
    var inner := if |t| >= 4 then t[2..|t| - 2] else t;
    match IndexFrom(inner, "|", 0)
    case None => (inner, None)
    case Some(b) => (inner[..b], Some(inner[b + 1..]))
  }

  /** The replacement `[${alias || link}](/posts/${slug})`. */
  function LinkText(t: string): string {
    var (link, alias) := LinkParts(t);
    var display := if alias.Some? && alias.value != [] then alias.value else link;
    "[" + display + "](/posts/" + Slug(link) + ")"
  }

  /** `!\[\[([^\]]+)\]\]`. */
  function Embed(s: string, i: nat): nat {
    if OccursAt(s, "![[", i) then
      var r := RunLen(s, NotClose, i + 3);
      if r >= 1 && OccursAt(s, "]]", i + 3 + r) then r + 5 else 0
    else 0
  }

  /** `'![image](/attachments/$1)'`. */
  function EmbedText(t: string): string {
    "![image](/attachments/" + (if |t| >= 5 then t[3..|t| - 2] else t) + ")"
  }

  /** `==(.*?)==`: up to the nearest `==`, within one line. */
  function Highlight(s: string, i: nat): nat {
    if OccursAt(s, "==", i) then
      match IndexFrom(s, "==", i + 2)
      case Some(j) => if forall k :: i + 2 <= k < j ==> !IsLineTerminator(s[k]) then j + 2 - i else 0
      case None => 0
    else 0
  }

  /** `'<mark>$1</mark>'`. */
  function MarkText(t: string): string {
    "<mark>" + (if |t| >= 4 then t[2..|t| - 2] else t) + "</mark>"
  }

  /** `convertObsidianSyntax`: links, then embeds, then highlights, each a global replace over the whole text. */
  function ConvertObsidianSyntax(content: string): string {
    var linked := ReplaceAll(content, WikiLink, LinkText).0;
    var embedded := ReplaceAll(linked, Embed, EmbedText).0;
    ReplaceAll(embedded, Highlight, MarkText).0
  }

  /** A match covering the whole text is replaced once. */
  lemma WholeMatch(s: string, m: Matcher, f: string -> string)
    requires MatchAt(s, m, 0) && m(s, 0) == |s|
    ensures ReplaceAll(s, m, f) == (f(s), 1)
  {
    assert MatchText(s, m, 0) == s;
    assert ReplaceAllFrom(s, m, f, |s|) == ([], 0);
    assert f(s) + [] == f(s);
  }

  /** The characters of a link, outside the ones the syntax itself uses. */
  predicate LinkChar(c: char) { c != ']' && c != '|' && c != '=' && c != '[' }

  predicate PlainLink(x: string) { x != [] && forall k :: 0 <= k < |x| ==> LinkChar(x[k]) }

  /** `[[link|alias]]` is one whole wiki-link match. */
  lemma AliasMatch(link: string, alias: string)
    requires link != [] && forall k :: 0 <= k < |link| ==> NotCloseOrBar(link[k])
    requires alias != [] && forall k :: 0 <= k < |alias| ==> NotClose(alias[k])
    ensures var s := "[[" + link + "|" + alias + "]]"; MatchAt(s, WikiLink, 0) && WikiLink(s, 0) == |s|
  {
    AliasShape(link, alias);
    AliasRuns("[[" + link + "|" + alias + "]]", link, alias);
  }

  /** A text laid out as `[[link|alias]]` is one whole match. */
  lemma AliasRuns(s: string, link: string, alias: string)
    requires link != [] && forall k :: 0 <= k < |link| ==> NotCloseOrBar(link[k])
    requires alias != [] && forall k :: 0 <= k < |alias| ==> NotClose(alias[k])
    requires var l, a := |link|, |alias|;
      |s| == l + a + 5 && OccursAt(s, "[[", 0) &&
      (forall k :: 0 <= k < l ==> s[2 + k] == link[k]) && s[2 + l] == '|' &&
      (forall k :: 0 <= k < a ==> s[3 + l + k] == alias[k]) && s[3 + l + a] == ']' &&
      OccursAt(s, "]]", 3 + l + a)
    ensures MatchAt(s, WikiLink, 0) && WikiLink(s, 0) == |s|
  {
    var l, a := |link|, |alias|;
    forall k | 2 <= k < 2 + l
      ensures NotCloseOrBar(s[k])
    {
      assert s[k] == link[k - 2];
    }
    forall k | 3 + l <= k < 3 + l + a
      ensures NotClose(s[k])
    {
      assert s[k] == alias[k - 3 - l];
    }
    assert !NotCloseOrBar(s[2 + l]);
    RunLenOver(s, NotCloseOrBar, 2, l);
    assert !NotClose(s[3 + l + a]);
    RunLenOver(s, NotClose, 3 + l, a);
    AliasedAt(s, 0, l, a);
  }

  /** The characters of `[[link|alias]]`. */
  lemma AliasShape(link: string, alias: string)
    ensures var s := "[[" + link + "|" + alias + "]]"; var l, a := |link|, |alias|;
      |s| == l + a + 5 && OccursAt(s, "[[", 0) &&
      (forall k :: 0 <= k < l ==> s[2 + k] == link[k]) && s[2 + l] == '|' &&
      (forall k :: 0 <= k < a ==> s[3 + l + k] == alias[k]) && s[3 + l + a] == ']' &&
      OccursAt(s, "]]", 3 + l + a)
  {
    var s := "[[" + link + "|" + alias + "]]";
    assert s[..2] == "[[" && s[3 + |link| + |alias|..] == "]]";
  }

  /** The wiki-link matcher on an aliased link, in the terms of its runs. */
  lemma AliasedAt(s: string, i: nat, l: nat, a: nat)
    requires OccursAt(s, "[[", i) && l >= 1 && RunLen(s, NotCloseOrBar, i + 2) == l
    requires i + 2 + l < |s| && s[i + 2 + l] == '|'
    requires a >= 1 && RunLen(s, NotClose, i + 3 + l) == a && OccursAt(s, "]]", i + 3 + l + a)
    ensures WikiLink(s, i) == l + a + 5
  {
  }

  /** `[[link|alias]]` becomes `[alias](/posts/slug)`. */
  lemma AliasedLink(link: string, alias: string)
    requires link != [] && forall k :: 0 <= k < |link| ==> NotCloseOrBar(link[k])
    requires alias != [] && forall k :: 0 <= k < |alias| ==> NotClose(alias[k])
    ensures ReplaceAll("[[" + link + "|" + alias + "]]", WikiLink, LinkText) == ("[" + alias + "](/posts/" + Slug(link) + ")", 1)
  {
    var s := "[[" + link + "|" + alias + "]]";
    AliasMatch(link, alias);
    WholeMatch(s, WikiLink, LinkText);
    AliasParts(link, alias);
  }

  /** The link and the alias are read back from the match. */
  lemma AliasParts(link: string, alias: string)
    requires forall k :: 0 <= k < |link| ==> NotCloseOrBar(link[k])
    ensures LinkParts("[[" + link + "|" + alias + "]]") == (link, Some(alias))
  {
    var s := "[[" + link + "|" + alias + "]]";
    var inner := link + "|" + alias;
    assert s[2..|s| - 2] == inner;
    FirstBar(link, alias);
    assert inner[..|link|] == link && inner[|link| + 1..] == alias;
  }

  /** The first `|` of `link|alias` is the one after the link. */
  lemma FirstBar(link: string, alias: string)
    requires forall k :: 0 <= k < |link| ==> NotCloseOrBar(link[k])
    ensures IndexFrom(link + "|" + alias, "|", 0) == Some(|link|)
  {
    var t := link + "|" + alias;
    assert t[|link|..|link| + 1] == "|";
    assert OccursAt(t, "|", |link|);
    forall k | 0 <= k < |link|
      ensures !OccursAt(t, "|", k)
    {
      assert t[k..k + 1] == [link[k]];
    }
  }

  /** `[[link]]` becomes `[link](/posts/slug)`. */
  lemma PlainWikiLink(link: string)
    requires link != [] && forall k :: 0 <= k < |link| ==> NotCloseOrBar(link[k])
    ensures ReplaceAll("[[" + link + "]]", WikiLink, LinkText) == ("[" + link + "](/posts/" + Slug(link) + ")", 1)
  {
    var s := "[[" + link + "]]";
    LinkMatch(link);
    WholeMatch(s, WikiLink, LinkText);
    NoBar(link);
  }

  /** A bracketed plain link is one whole wiki-link match. */
  lemma LinkMatch(link: string)
    requires link != [] && forall k :: 0 <= k < |link| ==> NotCloseOrBar(link[k])
    ensures MatchAt("[[" + link + "]]", WikiLink, 0) && WikiLink("[[" + link + "]]", 0) == |link| + 4
  {
    var s := "[[" + link + "]]";
    var l := |link|;
    assert forall k :: 0 <= k < l ==> s[2 + k] == link[k];
    assert s[2 + l] == ']' && s[3 + l] == ']';
    RunLenOver(s, NotCloseOrBar, 2, l);
    assert s[..2] == "[[" && s[2 + l..] == "]]";
  }

  /** A link without `|` has no alias. */
  lemma NoBar(link: string)
    requires forall k :: 0 <= k < |link| ==> NotCloseOrBar(link[k])
    ensures LinkParts("[[" + link + "]]") == (link, None)
  {
    var s := "[[" + link + "]]";
    assert s[2..|s| - 2] == link;
    forall k | 0 <= k < |link|
      ensures !OccursAt(link, "|", k)
    {
      assert link[k..k + 1] == [link[k]];
    }
  }

  /**
   * The link rule runs first, so an embed `![[x]]` becomes a link after
   * the `!` and the embed and highlight rules find nothing left to do.
   */
  lemma EmbedBecomesLink(x: string)
    requires PlainLink(x)
    ensures ConvertObsidianSyntax("![[" + x + "]]") == "![" + x + "](/posts/" + Slug(x) + ")"
  {
    var slug := Slug(x);
    var t := "![" + x + "](/posts/" + slug + ")";
    LinkAfterBang(x);
    NoBar(x);
    BangLink(x, slug);
    SlugIsPlain(x);
    NoEmbedIn(x, slug);
    NoHighlightIn(x, slug);
    ConvertSteps("![[" + x + "]]", t);
  }

  /** The `!` before a rewritten link. */
  lemma BangLink(x: string, slug: string)
    ensures "!" + ("[" + x + "](/posts/" + slug + ")") == "![" + x + "](/posts/" + slug + ")"
  {
    assert "!" + ("[" + x) == "![" + x;
  }

  /** A text the last two rules leave alone is the conversion of whatever the link rule turned into it. */
  lemma ConvertSteps(content: string, t: string)
    requires ReplaceAll(content, WikiLink, LinkText).0 == t
    requires ReplaceAll(t, Embed, EmbedText).0 == t && ReplaceAll(t, Highlight, MarkText).0 == t
    ensures ConvertObsidianSyntax(content) == t
  {
  }

  /** The wiki-link scan of `![[x]]`: the `!` is copied, the rest is one match. */
  lemma LinkAfterBang(x: string)
    requires PlainLink(x)
    ensures ReplaceAll("![[" + x + "]]", WikiLink, LinkText).0 == "!" + LinkText("[[" + x + "]]")
  {
    var s := "![[" + x + "]]";
    var w := "[[" + x + "]]";
    assert s[1..] == w;
    ShiftedLink(x);
    assert s[0..2] != "[[" by {
      assert s[0] == '!';
    }
    assert !MatchAt(s, WikiLink, 0);
    assert MatchText(s, WikiLink, 1) == w;
    var tail := ReplaceAllFrom(s, WikiLink, LinkText, |s|);
    assert tail == ([], 0);
    assert ReplaceAllFrom(s, WikiLink, LinkText, 1).0 == LinkText(w) + tail.0;
    assert ReplaceAllFrom(s, WikiLink, LinkText, 0).0 == [s[0]] + ReplaceAllFrom(s, WikiLink, LinkText, 1).0;
  }

  /** The wiki-link match inside `![[x]]` is the one of `[[x]]`. */
  lemma ShiftedLink(x: string)
    requires PlainLink(x)
    ensures MatchAt("![[" + x + "]]", WikiLink, 1) && WikiLink("![[" + x + "]]", 1) == |x| + 4
  {
    var s := "![[" + x + "]]";
    var l := |x|;
    assert forall k :: 0 <= k < l ==> s[3 + k] == x[k];
    assert s[3 + l] == ']' && s[4 + l] == ']';
    RunLenOver(s, NotCloseOrBar, 3, l);
    assert s[1..3] == "[[" && s[3 + l..5 + l] == "]]";
  }

  /** The slug of a plain link has none of the syntax characters either. */
  lemma SlugIsPlain(x: string)
    requires PlainLink(x)
    ensures forall k :: 0 <= k < |Slug(x)| ==> LinkChar(Slug(x)[k])
  {
    var bad := c => !LinkChar(c);
    ReplaceKeepsOut(Lower(x), RunOf(IsSpace, 1), Dash, bad, 0);
    forall k | 0 <= k < |Slug(x)|
      ensures LinkChar(Slug(x)[k])
    {
      assert Slug(x)[k] in Slug(x);
    }
  }

  /** The characters of a rewritten embed. */
  lemma LinkedShape(x: string, slug: string)
    ensures var t := "![" + x + "](/posts/" + slug + ")"; var l := |x|;
      |t| == l + |slug| + 12 && t[0] == '!' && t[1] == '[' &&
      (forall k :: 0 <= k < l ==> t[2 + k] == x[k]) && t[2 + l] == ']' && t[3 + l] == '(' &&
      t[4 + l..11 + l] == "/posts/" &&
      (forall k :: 0 <= k < |slug| ==> t[11 + l + k] == slug[k]) && t[11 + l + |slug|] == ')'
  {
  }

  /** After the link rule there is no `]]`, which every embed needs. */
  lemma NoEmbedIn(x: string, slug: string)
    requires PlainLink(x) && forall k :: 0 <= k < |slug| ==> LinkChar(slug[k])
    ensures var t := "![" + x + "](/posts/" + slug + ")"; ReplaceAll(t, Embed, EmbedText) == (t, 0)
  {
    var t := "![" + x + "](/posts/" + slug + ")";
    LinkedShape(x, slug);
    forall j: nat | j < |t|
      ensures !MatchAt(t, Embed, j)
    {
    }
    ReplaceNoMatch(t, Embed, EmbedText, 0);
  }

  /** A rewritten embed has no `=`, which every highlight needs. */
  lemma NoHighlightIn(x: string, slug: string)
    requires PlainLink(x) && forall k :: 0 <= k < |slug| ==> LinkChar(slug[k])
    ensures var t := "![" + x + "](/posts/" + slug + ")"; ReplaceAll(t, Highlight, MarkText) == (t, 0)
  {
    var t := "![" + x + "](/posts/" + slug + ")";
    var l := |x|;
    LinkedShape(x, slug);
    forall j: nat | j < |t|
      ensures t[j] != '='
    {
      if j < 2 {
        assert t[j] == '!' || t[j] == '[';
      } else if j < 2 + l {
        assert t[j] == x[j - 2];
      } else if j < 4 + l {
        assert t[j] == ']' || t[j] == '(';
      } else if j < 11 + l {
        assert t[j] == t[4 + l..11 + l][j - 4 - l];
        assert t[j] == "/posts/"[j - 4 - l];
      } else if j < 11 + l + |slug| {
        assert t[j] == slug[j - 11 - l];
      } else {
        assert t[j] == ')';
      }
    }
    forall j: nat | j < |t|
      ensures !MatchAt(t, Highlight, j)
    {
      assert t[j] != '=';
    }
    ReplaceNoMatch(t, Highlight, MarkText, 0);
  }

  /** `==x==` on one line becomes `<mark>x</mark>`. */
  lemma Highlighted(x: string)
    requires forall k :: 0 <= k < |x| ==> x[k] != '=' && !IsLineTerminator(x[k])
    ensures ReplaceAll("==" + x + "==", Highlight, MarkText) == ("<mark>" + x + "</mark>", 1)
  {
    var s := "==" + x + "==";
    var l := |x|;
    assert forall k :: 0 <= k < l ==> s[2 + k] == x[k];
    assert s[..2] == "==" && s[2 + l..] == "==";
    assert OccursAt(s, "==", 0) && OccursAt(s, "==", 2 + l);
    forall k | 2 <= k < 2 + l
      ensures !OccursAt(s, "==", k)
    {
      assert s[k] == x[k - 2];
    }
    assert IndexFrom(s, "==", 2) == Some(2 + l);
    assert Highlight(s, 0) == |s|;
    WholeMatch(s, Highlight, MarkText);
    assert s[2..|s| - 2] == x;
  }

  // ---------------------------------------------------------------- posts

  /** The front matter keys the store reads; `pinned` is its truthiness. */
  datatype FrontMatter = FrontMatter(
    title: Field,
    date: Field,
    tags: Option<seq<string>>,
    pinned: bool,
    pinnedOrder: Option<int>)

  /** One markdown file: its name, its front matter and its body. */
  datatype SourceFile = SourceFile(name: string, data: FrontMatter, body: string)

  /** `fileName.replace(/\.md$/, '')`. */
  function SlugOf(fileName: string): string {
    if EndsWith(fileName, ".md") then fileName[..|fileName| - 3] else fileName
  }

  /** `data.pinnedOrder || 999`. */
  function PinnedOrderOf(order: Option<int>): (n: int)
    ensures n != 0
  {
    match order
    case None => 999
    case Some(k) => if k == 0 then 999 else k
  }

  /** The post of one file; `today` is the date used when the front matter has none. */
  function ToPost(file: SourceFile, today: string): Post {
    var slug := SlugOf(file.name);
    var content := ConvertObsidianSyntax(file.body);
    Post(
      slug,
      OrElse(file.data.title, ReplaceChars(slug, c => c == '-', ' ')),
      OrElse(file.data.date, today),
      if file.data.tags.Some? then file.data.tags.value else [],
      Preview(PlainText(content)),
      content,
      ReadingTime(content),
      file.data.pinned,
      PinnedOrderOf(file.data.pinnedOrder))
  }

  /** The defaults a post gets from missing or falsy front-matter keys. */
  lemma PostDefaults(file: SourceFile, today: string)
    ensures var p := ToPost(file, today);
      (!Truthy(file.data.title) ==> |p.title| == |p.slug| && forall k :: 0 <= k < |p.slug| ==>
        p.title[k] == if p.slug[k] == '-' then ' ' else p.slug[k]) &&
      (file.data.tags.None? ==> p.tags == []) &&
      (file.data.pinnedOrder.None? || file.data.pinnedOrder == Some(0) ==> p.pinnedOrder == 999) &&
      p.pinnedOrder != 0 &&
      (!Truthy(file.data.date) ==> p.date == today)
  {
  }

  /** The post's preview is the start of its plain text, with dots exactly when that text is longer than 150 code units. */
  lemma PreviewOfPost(file: SourceFile, today: string)
    ensures var p := ToPost(file, today); var plain := PlainText(p.content);
      (JsLen(plain) <= PreviewLength ==> p.preview == plain) &&
      (JsLen(plain) > PreviewLength ==> EndsWith(p.preview, "...") && StartsWith(plain, p.preview[..|p.preview| - 3]))
  {
  }

  /** `getPostBySlug`: the post of the file `slug.md`, none when there is no such file. */
  function PostBySlug(files: seq<SourceFile>, slug: string, today: string): (r: Option<Post>)
    ensures r.Some? ==> r.value.slug == slug
    ensures r.Some? ==> exists f :: f in files && f.name == slug + ".md" && r.value == ToPost(f, today)
    ensures r.None? <==> forall f :: f in files ==> f.name != slug + ".md"
  {
    if files == [] then None
    else if files[0].name == slug + ".md" then
      var name := slug + ".md";
      assert name[|name| - 3..] == ".md" && name[..|name| - 3] == slug;
      Some(ToPost(files[0], today))
    else
      assert forall f :: f in files <==> f == files[0] || f in files[1..];
      PostBySlug(files[1..], slug, today)
  }

  /** The comparator `new Date(b.date) - new Date(a.date)`: newest first; `time` is the date parse. */
  function NewestFirst(time: string -> int): (Post, Post) -> bool {
    (a: Post, b: Post) => time(b.date) - time(a.date) <= 0
  }

  predicate IsMarkdownFile(f: SourceFile) { EndsWith(f.name, ".md") }

  /** `getAllPosts`: the `.md` files as posts, newest first. */
  function AllPosts(files: seq<SourceFile>, today: string, time: string -> int): seq<Post> {
    var md := Filter(files, IsMarkdownFile);
    SortBy(seq(|md|, k requires 0 <= k < |md| => ToPost(md[k], today)), NewestFirst(time))
  }

  /** The post list is sorted newest first and holds one post per markdown file. */
  lemma AllPostsSorted(files: seq<SourceFile>, today: string, time: string -> int)
    ensures SortedBy(AllPosts(files, today, time), NewestFirst(time))
    ensures var md := Filter(files, IsMarkdownFile);
      multiset(AllPosts(files, today, time)) == multiset(seq(|md|, k requires 0 <= k < |md| => ToPost(md[k], today)))
  {
    var md := Filter(files, IsMarkdownFile);
    var posts := seq(|md|, k requires 0 <= k < |md| => ToPost(md[k], today));
    assert TotalPreorder(NewestFirst(time));
    SortBySorted(posts, NewestFirst(time));
  }

  predicate IsPinned(p: Post) { p.pinned }

  /** `getPinnedPosts`: the pinned posts by ascending pinned order, at most five. */
  function PinnedPosts(all: seq<Post>): seq<Post> {
    Take(SortBy(Filter(all, IsPinned), ByPinnedOrder), 5)
  }

  /** At most five posts, all pinned and taken from the list, in pinned order; all of them when there are at most five. */
  lemma PinnedPostsSpec(all: seq<Post>)
    ensures |PinnedPosts(all)| <= 5
    ensures forall p :: p in PinnedPosts(all) ==> p.pinned && p in all
    ensures SortedBy(PinnedPosts(all), ByPinnedOrder)
    ensures |Filter(all, IsPinned)| <= 5 ==> multiset(PinnedPosts(all)) == multiset(Filter(all, IsPinned))
  {
    var pinned := Filter(all, IsPinned);
    var sorted := SortBy(pinned, ByPinnedOrder);
    ByPinnedOrderIsPreorder();
    SortBySorted(pinned, ByPinnedOrder);
    forall p | p in PinnedPosts(all)
      ensures p.pinned && p in all
    {
      assert p in sorted;
      assert p in multiset(sorted);
      assert p in pinned;
    }
  }

  /**
   * With more than five pinned posts, five are kept, and none of the pinned
   * posts left out has an earlier pinned order than a post kept.
   */
  lemma PinnedPostsEarliest(all: seq<Post>)
    requires |Filter(all, IsPinned)| > 5
    ensures |PinnedPosts(all)| == 5
    ensures multiset(PinnedPosts(all)) <= multiset(Filter(all, IsPinned))
    ensures forall p, q :: p in PinnedPosts(all) && q in multiset(Filter(all, IsPinned)) - multiset(PinnedPosts(all)) ==>
      PinnedKey(p) <= PinnedKey(q)
  {
    var pinned := Filter(all, IsPinned);
    ByPinnedOrderIsPreorder();
    SortBySorted(pinned, ByPinnedOrder);
    SortedPrefixFirst(SortBy(pinned, ByPinnedOrder), 5);
  }

  /** In a list sorted by pinned order, a prefix holds no post with a later order than one after it. */
  lemma SortedPrefixFirst(sorted: seq<Post>, n: nat)
    requires n <= |sorted| && SortedBy(sorted, ByPinnedOrder)
    ensures multiset(sorted[..n]) <= multiset(sorted)
    ensures forall p, q :: p in sorted[..n] && q in multiset(sorted) - multiset(sorted[..n]) ==> PinnedKey(p) <= PinnedKey(q)
  {
    var taken := sorted[..n];
    assert sorted == taken + sorted[n..];
    assert multiset(sorted) == multiset(taken) + multiset(sorted[n..]);
    forall p, q | p in taken && q in multiset(sorted) - multiset(taken)
      ensures PinnedKey(p) <= PinnedKey(q)
    {
      assert q in multiset(sorted[n..]);
      var i :| 0 <= i < n && taken[i] == p;
      var j :| n <= j < |sorted| && sorted[j] == q;
      assert ByPinnedOrder(sorted[i], sorted[j]);
    }
  }
}
