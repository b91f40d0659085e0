/**
 * The blog post record and the selections that lib/markdown.ts and
 * lib/ghost.ts both make over a list of posts: the preview cut, the
 * pinned order, the tag list, the tag filter and the search.
 */
module Posts {
  import opened Wrappers
  import opened Strings
  import opened Sorting

  /** The fields of a post the selections read (rendered HTML and media fields are not modelled). */
  datatype Post = Post(
    slug: string,
    title: string,
    date: string,
    tags: seq<string>,
    preview: string,
    content: string,
    readingTime: string,
    pinned: bool,
    pinnedOrder: int)

  // ---------------------------------------------------------------- preview

  const PreviewLength: nat := 150

  /** `plain.substring(0, 150) + (plain.length > 150 ? '...' : '')`. */
  function Preview(plain: string): (r: string)
    ensures JsLen(plain) <= PreviewLength ==> r == plain
    ensures JsLen(plain) > PreviewLength ==>
      EndsWith(r, "...") && StartsWith(plain, r[..|r| - 3]) && JsLen(r[..|r| - 3]) <= PreviewLength
  {
    if JsLen(plain) > PreviewLength then
      var head := JsPrefix(plain, PreviewLength);
      var r := head + "...";
      assert r[..|r| - 3] == head && r[|r| - 3..] == "...";
      r
    else JsPrefix(plain, PreviewLength)
  }

  /** A cut preview is 152 or 153 code units long: 150 of the text (149 when a surrogate pair straddles the cut) and the dots. */
  lemma PreviewKeepsWholePrefix(plain: string)
    requires JsLen(plain) > PreviewLength
    ensures JsLen(Preview(plain)) <= PreviewLength + 3
    ensures JsLen(Preview(plain)) >= PreviewLength + 2
  {
    var head := JsPrefix(plain, PreviewLength);
    JsLenAppend(head, "...");
    PrefixLength(plain, PreviewLength);
  }

  /** The prefix `substring` takes falls short of `n` code units by at most one (a split surrogate pair). */
  lemma {:induction false} PrefixLength(s: string, n: nat)
    requires JsLen(s) >= n
    ensures JsLen(JsPrefix(s, n)) + 1 >= n
  {
    if s != [] && Units(s[0]) <= n {
      PrefixLength(s[1..], n - Units(s[0]));
    }
  }

  // ---------------------------------------------------------------- pinned order

  /** `(post.pinnedOrder || 999)`: an order of 0 counts as unset. */
  function PinnedKey(p: Post): (k: int)
    ensures p.pinnedOrder != 0 ==> k == p.pinnedOrder
    ensures p.pinnedOrder == 0 ==> k == 999
  {
    if p.pinnedOrder == 0 then 999 else p.pinnedOrder
  }

  /** The comparator `(a, b) => key(a) - key(b)`: `a` may come first when the difference is not positive. */
  predicate ByPinnedOrder(a: Post, b: Post) { PinnedKey(a) <= PinnedKey(b) }

  lemma ByPinnedOrderIsPreorder()
    ensures TotalPreorder(ByPinnedOrder)
  {
  }

  // ---------------------------------------------------------------- tags

  /** `posts.flatMap(post => post.tags)`. */
  function AllTagsOf(posts: seq<Post>): (r: seq<string>)
    ensures forall t :: t in r <==> exists p :: p in posts && t in p.tags
  {
    if posts == [] then []
    else
      assert forall p :: p in posts <==> p == posts[0] || p in posts[1..];
      posts[0].tags + AllTagsOf(posts[1..])
  }

  /** `[...new Set(allTags)].sort()`: distinct tags in code-unit order. */
  function TagList(posts: seq<Post>): seq<string> {
    SortBy(Dedupe(AllTagsOf(posts)), StringLe)
  }

  lemma StringLeIsPreorder()
    ensures TotalPreorder(StringLe)
  {
    forall a: string, b: string
      ensures StringLe(a, b) || StringLe(b, a)
    {
      LexLeTotal(Utf16(a), Utf16(b));
    }
    forall a: string, b: string, c: string | StringLe(a, b) && StringLe(b, c)
      ensures StringLe(a, c)
    {
      LexLeTrans(Utf16(a), Utf16(b), Utf16(c));
    }
  }

  /** The tag list is sorted, has no duplicates and holds exactly the tags of the posts. */
  lemma TagListSpec(posts: seq<Post>)
    ensures SortedBy(TagList(posts), StringLe)
    ensures forall i, j :: 0 <= i < j < |TagList(posts)| ==> TagList(posts)[i] != TagList(posts)[j]
    ensures forall t :: t in TagList(posts) <==> exists p :: p in posts && t in p.tags
  {
    var d := Dedupe(AllTagsOf(posts));
    StringLeIsPreorder();
    SortBySorted(d, StringLe);
    DistinctPermutation(d, TagList(posts));
    forall t
      ensures t in TagList(posts) <==> t in d
    {
      assert t in TagList(posts) <==> t in multiset(TagList(posts));
      assert t in d <==> t in multiset(d);
    }
  }

  /** A permutation of a sequence without duplicates has none. */
  lemma DistinctPermutation<T>(a: seq<T>, b: seq<T>)
    requires multiset(a) == multiset(b)
    requires forall i, j :: 0 <= i < j < |a| ==> a[i] != a[j]
    ensures forall i, j :: 0 <= i < j < |b| ==> b[i] != b[j]
  {
    forall i, j | 0 <= i < j < |b|
      ensures b[i] != b[j]
    {
      if b[i] == b[j] {
        assert b == b[..j] + b[j..];
        assert b[i] in multiset(b[..j]);
        assert b[j] in multiset(b[j..]);
        assert multiset(b)[b[i]] >= 2;
        AtMostOnce(a, b[i]);
      }
    }
  }

  /** In a sequence without duplicates every value occurs at most once. */
  lemma {:induction false} AtMostOnce<T>(a: seq<T>, x: T)
    requires forall i, j :: 0 <= i < j < |a| ==> a[i] != a[j]
    ensures multiset(a)[x] <= 1
  {
    if a != [] {
      AtMostOnce(a[1..], x);
      assert a == [a[0]] + a[1..];
      if a[0] == x {
        assert x !in a[1..];
      }
    }
  }

  // ---------------------------------------------------------------- filters

  /** `post.tags.map(t => t.toLowerCase()).includes(tag.toLowerCase())`. */
  predicate HasTag(p: Post, tag: string) {
    exists k :: 0 <= k < |p.tags| && Lower(p.tags[k]) == Lower(tag)
  }

  /** `getPostsByTag`: the posts carrying the tag in any letter case, in their order. */
  function PostsByTag(posts: seq<Post>, tag: string): (r: seq<Post>)
    ensures forall p :: p in r <==> p in posts && HasTag(p, tag)
  {
    Filter(posts, p => HasTag(p, tag))
  }

  /** `tags.some(tag => tag.toLowerCase().includes(q))`. */
  predicate SomeTagIncludes(tags: seq<string>, q: string) {
    exists k :: 0 <= k < |tags| && Contains(Lower(tags[k]), q)
  }

  /** The search test: the lowercased query in the title, the content or a tag. */
  predicate Found(p: Post, query: string) {
    var q := Lower(query);
    Contains(Lower(p.title), q) || Contains(Lower(p.content), q) || SomeTagIncludes(p.tags, q)
  }

  /** `searchPosts`: the posts the query is found in, in their order. */
  function Search(posts: seq<Post>, query: string): (r: seq<Post>)
    ensures forall p :: p in r <==> p in posts && Found(p, query)
  {
    Filter(posts, p => Found(p, query))
  }

  /** Filtering with two tests that agree on every element gives the same list. */
  lemma {:induction false} FilterAgrees<T>(s: seq<T>, f: T -> bool, g: T -> bool)
    requires forall k :: 0 <= k < |s| ==> f(s[k]) == g(s[k])
    ensures Filter(s, f) == Filter(s, g)
  {
    if s != [] {
      FilterAgrees(s[1..], f, g);
    }
  }

  /** The tag filter and the search ignore the letter case of what is asked for. */
  lemma CaseInsensitive(posts: seq<Post>, tag: string, query: string)
    ensures PostsByTag(posts, tag) == PostsByTag(posts, Lower(tag))
    ensures Search(posts, query) == Search(posts, Lower(query))
  {
    LowerIdempotent(tag);
    LowerIdempotent(query);
    FilterAgrees(posts, p => HasTag(p, tag), p => HasTag(p, Lower(tag)));
    FilterAgrees(posts, p => Found(p, query), p => Found(p, Lower(query)));
  }

  /** The empty query is found in every post, so searching for it returns all of them. */
  lemma EmptyQueryFindsAll(posts: seq<Post>)
    ensures Search(posts, "") == posts
  {
    forall k | 0 <= k < |posts|
      ensures Found(posts[k], "")
    {
      assert OccursAt(Lower(posts[k].title), "", 0);
    }
    FilterAll(posts, p => Found(p, ""));
  }
}
