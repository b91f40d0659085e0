/**
 * The home page feed: posts and photos merged into one list, newest first.
 *
 * Dates are milliseconds since the epoch. `new Date(text)` is the
 * parameter `parse` and `Date.prototype.toString` the parameter `show`;
 * a text that does not parse (an invalid date) is not part of this model.
 */
module MainFeed {
  import opened Wrappers
  import opened Strings
  import opened Sorting

  /** A post's date: the front-matter text, or a `Date` value. */
  datatype PostDate = DateText(text: string) | DateValue(ms: int)

  datatype Post = Post(slug: string, title: string, date: PostDate)

  datatype PhotoMetadata = PhotoMetadata(date: Option<string>, location: Option<string>,
                                         camera: Option<string>, description: Option<string>)

  datatype Photo = Photo(src: string, alt: string, filename: string, metadata: Option<PhotoMetadata>)

  datatype FeedItem = PostItem(date: int, post: Post) | PhotoItem(date: int, photo: Photo)

  /** A post's date as the feed reads it: a `Date` is printed with `toString` and parsed again. */
  function PostTime(post: Post, parse: string -> int, show: int -> string): int {
    match post.date
    case DateText(text) => parse(text)
    case DateValue(ms) => parse(show(ms))
  }

  predicate IsDot(c: char) { c == '.' }

  /** A photo's date: its metadata date with dots read as dashes, or the epoch when it has none. */
  function PhotoTime(photo: Photo, parse: string -> int): (t: int)
    ensures (photo.metadata.None? || photo.metadata.value.date.None? || photo.metadata.value.date.value == []) ==> t == 0
    ensures photo.metadata.Some? && photo.metadata.value.date.Some? && photo.metadata.value.date.value != [] ==>
      exists text :: '.' !in text && |text| == |photo.metadata.value.date.value| && t == parse(text)
  {
    match photo.metadata
    case Some(PhotoMetadata(Some(d), _, _, _)) =>
      if d != [] then
        var text := ReplaceChars(d, IsDot, '-');
        assert forall k :: 0 <= k < |text| ==> text[k] != '.';
        parse(text)
      else 0
    case _ => 0
  }

  predicate IsSvg(photo: Photo) { EndsWith(photo.filename, ".svg") }

  function PostItemOf(post: Post, parse: string -> int, show: int -> string): FeedItem {
    PostItem(PostTime(post, parse, show), post)
  }

  function PhotoItemOf(photo: Photo, parse: string -> int): FeedItem {
    PhotoItem(PhotoTime(photo, parse), photo)
  }

  /** What the first loop pushes: one item per post, in order. */
  function PostItems(posts: seq<Post>, parse: string -> int, show: int -> string): (r: seq<FeedItem>)
    ensures |r| == |posts|
  {
    if posts == [] then []
    else PostItems(posts[..|posts| - 1], parse, show) + [PostItemOf(posts[|posts| - 1], parse, show)]
  }

  /** What the second loop pushes: one item per photo that is not an SVG file, in order. */
  function PhotoItems(photos: seq<Photo>, parse: string -> int): (r: seq<FeedItem>)
    ensures |r| <= |photos|
  {
    if photos == [] then []
    else if IsSvg(photos[|photos| - 1]) then PhotoItems(photos[..|photos| - 1], parse)
    else PhotoItems(photos[..|photos| - 1], parse) + [PhotoItemOf(photos[|photos| - 1], parse)]
  }

  /** Everything pushed, before the sort. */
  function Collected(posts: seq<Post>, photos: seq<Photo>, parse: string -> int, show: int -> string): seq<FeedItem> {
    PostItems(posts, parse, show) + PhotoItems(photos, parse)
  }

  /** The comparator `b.date - a.date`, as "may precede": newer first. */
  predicate Later(a: FeedItem, b: FeedItem) { a.date >= b.date }

  /** `buildFeed`. */
  method BuildFeed(posts: seq<Post>, photos: seq<Photo>, parse: string -> int, show: int -> string)
    returns (items: seq<FeedItem>)
    ensures SortedBy(items, Later)
    ensures multiset(items) == multiset(Collected(posts, photos, parse, show))
  {
    items := [];
    for i := 0 to |posts|
      invariant items == PostItems(posts[..i], parse, show)
    {
      var post := posts[i];
      var dateStr := match post.date case DateText(text) => text case DateValue(ms) => show(ms);
      items := items + [PostItem(parse(dateStr), post)];
      assert posts[..i + 1][..i] == posts[..i];
    }
    assert posts[..|posts|] == posts;
    for j := 0 to |photos|
      invariant items == PostItems(posts, parse, show) + PhotoItems(photos[..j], parse)
    {
      assert photos[..j + 1][..j] == photos[..j];
      var photo := photos[j];
      if EndsWith(photo.filename, ".svg") {
        continue;
      }
      var date := 0;
      if photo.metadata.Some? && photo.metadata.value.date.Some? && photo.metadata.value.date.value != [] {
        date := parse(ReplaceChars(photo.metadata.value.date.value, IsDot, '-'));
      }
      items := items + [PhotoItem(date, photo)];
    }
    assert photos[..|photos|] == photos;
    assert TotalPreorder(Later);
    SortBySorted(items, Later);
    items := SortBy(items, Later);
  }

  /** The posts and the photos that are not SVG files, each exactly as often as it is given. */
  lemma {:induction false} PostItemsCount(posts: seq<Post>, parse: string -> int, show: int -> string, post: Post)
    ensures multiset(PostItems(posts, parse, show))[PostItemOf(post, parse, show)] == multiset(posts)[post]
  {
    if posts != [] {
      var init := posts[..|posts| - 1];
      PostItemsCount(init, parse, show, post);
      assert posts == init + [posts[|posts| - 1]];
    }
  }

  lemma {:induction false} PostItemsArePosts(posts: seq<Post>, parse: string -> int, show: int -> string)
    ensures forall k :: 0 <= k < |PostItems(posts, parse, show)| ==> PostItems(posts, parse, show)[k].PostItem?
  {
    if posts != [] {
      PostItemsArePosts(posts[..|posts| - 1], parse, show);
    }
  }

  lemma {:induction false} PhotoItemsArePhotos(photos: seq<Photo>, parse: string -> int)
    ensures forall k :: 0 <= k < |PhotoItems(photos, parse)| ==> PhotoItems(photos, parse)[k].PhotoItem?
  {
    if photos != [] {
      PhotoItemsArePhotos(photos[..|photos| - 1], parse);
    }
  }

  lemma {:induction false} PhotoItemsCount(photos: seq<Photo>, parse: string -> int, photo: Photo)
    ensures multiset(PhotoItems(photos, parse))[PhotoItemOf(photo, parse)] ==
      if IsSvg(photo) then 0 else multiset(photos)[photo]
  {
    if photos != [] {
      var init := photos[..|photos| - 1];
      PhotoItemsCount(init, parse, photo);
      assert photos == init + [photos[|photos| - 1]];
    } else if IsSvg(photo) {
      assert multiset(PhotoItems(photos, parse)) == multiset{};
    }
  }

  /** A sequence of items of one kind holds no item of the other. */
  lemma AbsentKind(items: seq<FeedItem>, x: FeedItem)
    requires forall k :: 0 <= k < |items| ==> items[k].PostItem? != x.PostItem?
    ensures multiset(items)[x] == 0
  {
    forall k | 0 <= k < |items|
      ensures items[k] != x
    {
    }
    assert x !in items;
  }

  /** Every post is in the feed exactly as often as it is given, dated as the feed reads its date. */
  lemma EveryPostOnce(posts: seq<Post>, photos: seq<Photo>, parse: string -> int, show: int -> string, post: Post)
    ensures multiset(Collected(posts, photos, parse, show))[PostItemOf(post, parse, show)] == multiset(posts)[post]
  {
    PostItemsCount(posts, parse, show, post);
    PhotoItemsArePhotos(photos, parse);
    AbsentKind(PhotoItems(photos, parse), PostItemOf(post, parse, show));
  }

  /** Every photo that is not an SVG file is in the feed exactly as often as it is given; SVG files never are. */
  lemma EveryPhotoOnce(posts: seq<Post>, photos: seq<Photo>, parse: string -> int, show: int -> string, photo: Photo)
    ensures multiset(Collected(posts, photos, parse, show))[PhotoItemOf(photo, parse)] ==
      if IsSvg(photo) then 0 else multiset(photos)[photo]
  {
    PhotoItemsCount(photos, parse, photo);
    PostItemsArePosts(posts, parse, show);
    AbsentKind(PostItems(posts, parse, show), PhotoItemOf(photo, parse));
  }

  /** The feed holds one item per post and one per photo that is not an SVG file. */
  lemma {:induction false} FeedLength(posts: seq<Post>, photos: seq<Photo>, parse: string -> int, show: int -> string)
    ensures |Collected(posts, photos, parse, show)| == |posts| + |Filter(photos, IsSvgFree)|
  {
    PhotoItemsLength(photos, parse);
  }

  predicate IsSvgFree(photo: Photo) { !IsSvg(photo) }

  lemma {:induction false} PhotoItemsLength(photos: seq<Photo>, parse: string -> int)
    ensures |PhotoItems(photos, parse)| == |Filter(photos, IsSvgFree)|
  {
    if photos != [] {
      var init := photos[..|photos| - 1];
      var last := photos[|photos| - 1];
      PhotoItemsLength(init, parse);
      FilterAppend(init, [last], IsSvgFree);
      assert photos == init + [last];
    }
  }
}
