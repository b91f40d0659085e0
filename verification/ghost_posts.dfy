/**
 * The Ghost post store (lib/ghost.ts): a post of the Ghost content API
 * becomes a site post, with plain text cut from its HTML, a preview, a
 * reading-time label and a pinned order taken from a local metadata map.
 * The HTTP requests are not modelled: what an API call returns is given.
 */
module GhostPosts {
  import opened Wrappers
  import opened Strings
  import opened Scan
  import opened Sorting
  import opened Posts
  import SiteUtils
  import TextNormalization

  /** The fields of an API post the conversion reads; `tags` are the tag names. */
  datatype GhostPost = GhostPost(
    slug: string,
    title: string,
    html: Option<string>,
    excerpt: Option<string>,
    featured: bool,
    publishedAt: string,
    readingTime: nat,
    tags: seq<string>)

  /** The local metadata of one slug that the conversion reads. */
  datatype PostMeta = PostMeta(pinnedOrder: Option<int>)

  /** `gp.html || ''`. */
  function HtmlContent(gp: GhostPost): string {
    if gp.html.Some? then gp.html.value else ""
  }

  /** `html.replace(/<[^>]*>/g, '').replace(/\s+/g, ' ').trim()`. */
  function PlainText(html: string): string {
    Trim(SiteUtils.CollapseSpaces(ReplaceAll(html, SiteUtils.HtmlTag, SiteUtils.Erase).0))
  }

  /** `s.split('T')[0]`: everything before the first `T`. */
  function DatePart(s: string): (r: string)
    ensures StartsWith(s, r) && 'T' !in r
    ensures 'T' !in s ==> r == s
    ensures |r| < |s| ==> s[|r|] == 'T'
  {
    match IndexFrom(s, "T", 0)
    case None =>
      NoTBefore(s, |s|);
      s
    case Some(i) =>
      NoTBefore(s, i);
      assert s[i] == s[i..i + 1][0];
      s[..i]
  }

  /** No `T` before the first place `T` occurs. */
  lemma NoTBefore(s: string, n: nat)
    requires n <= |s|
    requires forall k :: 0 <= k < n ==> !OccursAt(s, "T", k)
    ensures 'T' !in s[..n]
  {
    forall k | 0 <= k < n
      ensures s[k] != 'T'
    {
      assert !OccursAt(s, "T", k);
      assert s[k..k + 1] == [s[k]];
      assert "T" == ['T'];
    }
  }

  /** The reading-time label: Ghost's own minutes when it gives a nonzero count, otherwise the site's estimate. */
  function ReadingLabel(gp: GhostPost): string {
    if gp.readingTime != 0 then NatToString(gp.readingTime) + " min read"
    else SiteUtils.ReadingTime(HtmlContent(gp))
  }

  /** `meta.pinnedOrder ?? (gp.featured ? 0 : 999)`. */
  function GhostPinnedOrder(gp: GhostPost, metaMap: map<string, PostMeta>): int {
    if gp.slug in metaMap && metaMap[gp.slug].pinnedOrder.Some? then metaMap[gp.slug].pinnedOrder.value
    else if gp.featured then 0
    else 999
  }

  /** `ghostPostToPost`; `now` is the current time as an ISO string. */
  function GhostPostToPost(gp: GhostPost, metaMap: map<string, PostMeta>, now: string): Post {
    var plain := PlainText(HtmlContent(gp));
    Post(
      gp.slug,
      gp.title,
      if gp.publishedAt != [] then DatePart(gp.publishedAt) else DatePart(now),
      gp.tags,
      if gp.excerpt.Some? && gp.excerpt.value != [] then gp.excerpt.value else Preview(plain),
      plain,
      ReadingLabel(gp),
      gp.featured,
      GhostPinnedOrder(gp, metaMap))
  }

  /** Each whitespace character of a text starts a maximal run, so collapsing runs to one space is a spacing pass. */
  lemma CollapseIsSpacing(s: string)
    ensures TextNormalization.SpacingPass(s, RunOf(IsSpace, 1), SiteUtils.OneSpace)
  {
    var m := RunOf(IsSpace, 1);
    forall j | 0 <= j < |s| && MatchAt(s, m, j)
      ensures IsSpace(s[j]) && (j + m(s, j) < |s| ==> !IsSpace(s[j + m(s, j)]))
    {
      assert RunLen(s, IsSpace, j) >= 1;
    }
  }

  /** The plain text has no whitespace at either end and never two whitespace characters together. */
  lemma PlainTextIsClean(html: string)
    ensures TextNormalization.Clean(PlainText(html))
  {
    CollapsedIsClean(ReplaceAll(html, SiteUtils.HtmlTag, SiteUtils.Erase).0);
  }

  /** Collapsing whitespace runs and trimming gives a clean text. */
  lemma CollapsedIsClean(s: string)
    ensures TextNormalization.Clean(Trim(SiteUtils.CollapseSpaces(s)))
  {
    var c := SiteUtils.CollapseSpaces(s);
    CollapseIsSpacing(s);
    TextNormalization.SpacingPassSingle(s, RunOf(IsSpace, 1), SiteUtils.OneSpace, 0);
    TextNormalization.TrimmedIsClean(c);
  }

  /** What the conversion keeps and what it defaults. */
  lemma ConversionDefaults(gp: GhostPost, metaMap: map<string, PostMeta>, now: string)
    ensures var p := GhostPostToPost(gp, metaMap, now);
      p.slug == gp.slug && p.tags == gp.tags && p.pinned == gp.featured &&
      p.date == DatePart(if gp.publishedAt != [] then gp.publishedAt else now) &&
      (gp.slug !in metaMap && gp.featured ==> p.pinnedOrder == 0) &&
      (gp.slug !in metaMap && !gp.featured ==> p.pinnedOrder == 999) &&
      EndsWith(p.readingTime, " min read") &&
      TextNormalization.Clean(p.content)
  {
    PlainTextIsClean(HtmlContent(gp));
    var shown := NatToString(gp.readingTime) + " min read";
    assert shown[|shown| - 9..] == " min read";
  }

  /**
   * A featured post without a metadata order gets 0, but the pinned sort
   * reads 0 as unset: it sorts with the same key as an unpinned post.
   */
  lemma FeaturedDefaultSortsAsUnset(gp: GhostPost, metaMap: map<string, PostMeta>, now: string)
    requires gp.featured && gp.slug !in metaMap
    ensures PinnedKey(GhostPostToPost(gp, metaMap, now)) == 999
  {
  }

  /** `getAllPostsFromGhost`: the posts of the API response in the order the API sends them. */
  function AllPostsFromGhost(response: seq<GhostPost>, metaMap: map<string, PostMeta>, now: string): (r: seq<Post>)
    ensures |r| == |response|
    ensures forall k :: 0 <= k < |r| ==> r[k] == GhostPostToPost(response[k], metaMap, now)
  {
    seq(|response|, k requires 0 <= k < |response| => GhostPostToPost(response[k], metaMap, now))
  }

  /** `getPostBySlugFromGhost`: the first post of a successful, nonempty response; otherwise none. */
  function PostBySlugFromGhost(response: Result<seq<GhostPost>>, metaMap: map<string, PostMeta>, now: string): (r: Option<Post>)
    ensures r.Some? <==> response.Ok? && response.value != []
    ensures r.Some? ==> r.value == GhostPostToPost(response.value[0], metaMap, now)
  {
    match response
    case Failed(_) => None
    case Ok(posts) => if posts == [] then None else Some(GhostPostToPost(posts[0], metaMap, now))
  }

  /** `getPinnedPostsFromGhost`: the featured posts the API returns, by ascending pinned order. */
  function PinnedPostsFromGhost(response: seq<GhostPost>, metaMap: map<string, PostMeta>, now: string): seq<Post> {
    SortBy(AllPostsFromGhost(response, metaMap, now), ByPinnedOrder)
  }

  /** The pinned list is sorted by pinned order and holds every returned post once. */
  lemma PinnedFromGhostSorted(response: seq<GhostPost>, metaMap: map<string, PostMeta>, now: string)
    ensures SortedBy(PinnedPostsFromGhost(response, metaMap, now), ByPinnedOrder)
    ensures multiset(PinnedPostsFromGhost(response, metaMap, now)) == multiset(AllPostsFromGhost(response, metaMap, now))
  {
    ByPinnedOrderIsPreorder();
    SortBySorted(AllPostsFromGhost(response, metaMap, now), ByPinnedOrder);
  }

  /** `getAllTagsFromGhost`: sorted, distinct, and exactly the tag names of the returned posts. */
  lemma TagsFromGhost(response: seq<GhostPost>, metaMap: map<string, PostMeta>, now: string)
    ensures var tags := TagList(AllPostsFromGhost(response, metaMap, now));
      SortedBy(tags, StringLe) &&
      (forall i, j :: 0 <= i < j < |tags| ==> tags[i] != tags[j]) &&
      (forall t :: t in tags <==> exists gp :: gp in response && t in gp.tags)
  {
    var posts := AllPostsFromGhost(response, metaMap, now);
    TagListSpec(posts);
    forall t, p | p in posts && t in p.tags
      ensures exists gp :: gp in response && t in gp.tags
    {
      var k :| 0 <= k < |posts| && posts[k] == p;
      assert response[k] in response && t in response[k].tags;
    }
    forall t, gp | gp in response && t in gp.tags
      ensures exists p :: p in posts && t in p.tags
    {
      var k :| 0 <= k < |response| && response[k] == gp;
      assert posts[k] in posts && t in posts[k].tags;
    }
  }

  /** `searchPostsFromGhost` searches the plain text, so markup is never found. */
  lemma SearchFromGhost(response: seq<GhostPost>, metaMap: map<string, PostMeta>, now: string, query: string)
    ensures forall p :: p in Search(AllPostsFromGhost(response, metaMap, now), query) <==>
      exists k :: 0 <= k < |response| && p == GhostPostToPost(response[k], metaMap, now) &&
        (Contains(Lower(response[k].title), Lower(query)) ||
         Contains(Lower(PlainText(HtmlContent(response[k]))), Lower(query)) ||
         SomeTagIncludes(response[k].tags, Lower(query)))
  {
  }
}
