/**
 * Thumbnail selection for an extracted article: the strategies tried in
 * order, and the normalisation of the image address against the page's
 * address.
 *
 * URL parsing (`new URL(...)`) and resolution of a relative address
 * against a base follow the WHATWG URL standard and are parameters here:
 * `parse` gives the protocol, host and href of an address or fails, and
 * `resolve` is `new URL(ref, base).href`.
 */
module ContentExtractor {
  import opened Wrappers
  import opened Strings
  import opened Sorting

  datatype UrlParts = UrlParts(protocol: string, host: string, href: string)

  type UrlParser = string -> Result<UrlParts>
  type Resolver = (string, string) -> Result<string>

  /** `normalizeUrl`: an image address made absolute against the page address; a thrown `TypeError` is `Failed`. */
  function NormalizeUrl(imageUrl: string, baseUrl: string, parse: UrlParser, resolve: Resolver): (r: Result<string>)
    ensures imageUrl == [] ==> r == Ok([])
    ensures StartsWith(imageUrl, "http") ==> r == Ok(imageUrl)
    ensures StartsWith(imageUrl, "//") ==> r == Ok("https:" + imageUrl)
    ensures imageUrl != [] && imageUrl[0] == '/' && !StartsWith(imageUrl, "//") ==>
      r == (match parse(baseUrl)
            case Ok(base) => Ok(base.protocol + "//" + base.host + imageUrl)
            case Failed(e) => Failed(e))
  {
    if imageUrl == [] then Ok([])
    else if StartsWith(imageUrl, "http") then
      assert imageUrl[0] == 'h';
      Ok(imageUrl)
    else if StartsWith(imageUrl, "//") then Ok("https:" + imageUrl)
    else if StartsWith(imageUrl, "/") then
      match parse(baseUrl)
      case Ok(base) => Ok(base.protocol + "//" + base.host + imageUrl)
      case Failed(e) => Failed(e)
    else
      match parse(baseUrl)
      case Ok(base) => resolve(imageUrl, base.href)
      case Failed(e) => Failed(e)
  }

  /**
   * Normalising again changes nothing, for every address the first four
   * branches produce when the page is served over http or https.
   */
  lemma NormalizeSettles(imageUrl: string, baseUrl: string, parse: UrlParser, resolve: Resolver)
    requires StartsWith(imageUrl, "/") || StartsWith(imageUrl, "http")
    requires parse(baseUrl).Ok? ==> StartsWith(parse(baseUrl).value.protocol, "http")
    requires NormalizeUrl(imageUrl, baseUrl, parse, resolve).Ok?
    ensures var u := NormalizeUrl(imageUrl, baseUrl, parse, resolve).value;
      NormalizeUrl(u, baseUrl, parse, resolve) == Ok(u)
  {
    var u := NormalizeUrl(imageUrl, baseUrl, parse, resolve).value;
    if StartsWith(imageUrl, "http") {
    } else if StartsWith(imageUrl, "//") {
      assert u == "https:" + imageUrl;
      assert u[..4] == "http";
    } else {
      var base := parse(baseUrl).value;
      assert u == base.protocol + "//" + base.host + imageUrl;
      assert u[..4] == base.protocol[..4];
    }
  }

  /** An `<img>` of the page; `None` stands for a width or height that `parseInt` reads as `NaN`. */
  datatype Img = Img(src: Option<string>, width: Option<int>, height: Option<int>)

  /** The parts of the page the strategies read: attribute values, `None` when the element or attribute is missing. */
  datatype Page = Page(ogImage: Option<string>, twitterImage: Option<string>, articleImage: Option<string>, images: seq<Img>)

  /** A JavaScript truthy attribute value. */
  predicate Given(v: Option<string>) { v.Some? && v.value != [] }

  /** At least 400 wide and 300 high. */
  predicate Large(img: Img) {
    img.width.Some? && img.width.value >= 400 && img.height.Some? && img.height.value >= 300
  }

  function Area(img: Img): int {
    if img.width.Some? && img.height.Some? then img.width.value * img.height.value else 0
  }

  /** The comparator `b.width * b.height - a.width * a.height`, as "may precede". */
  predicate LargerFirst(a: Img, b: Img) { Area(a) >= Area(b) }

  /** The large images, largest first (a stable sort). */
  function Candidates(images: seq<Img>): (r: seq<Img>)
    ensures multiset(r) == multiset(Filter(images, Large))
  {
    SortBy(Filter(images, Large), LargerFirst)
  }

  /** `extractThumbnail`: `Ok(None)` is `undefined`, `Failed` a thrown error. */
  function Thumbnail(page: Page, url: string, parse: UrlParser, resolve: Resolver): (r: Result<Option<string>>)
    ensures Given(page.ogImage) ==> r == Lift(NormalizeUrl(page.ogImage.value, url, parse, resolve))
    ensures !Given(page.ogImage) && Given(page.twitterImage) ==>
      r == Lift(NormalizeUrl(page.twitterImage.value, url, parse, resolve))
    ensures !Given(page.ogImage) && !Given(page.twitterImage) && Given(page.articleImage) ==>
      r == Lift(NormalizeUrl(page.articleImage.value, url, parse, resolve))
  {
    if Given(page.ogImage) then Lift(NormalizeUrl(page.ogImage.value, url, parse, resolve))
    else if Given(page.twitterImage) then Lift(NormalizeUrl(page.twitterImage.value, url, parse, resolve))
    else if Given(page.articleImage) then Lift(NormalizeUrl(page.articleImage.value, url, parse, resolve))
    else
      var c := Candidates(page.images);
      if c == [] then Ok(None)
      else
        // `images[0].src!` of a source-less image is `undefined`, which `normalizeUrl` turns into ''
        var src := if c[0].src.Some? then c[0].src.value else [];
        Lift(NormalizeUrl(src, url, parse, resolve))
  }

  function Lift(r: Result<string>): Result<Option<string>> {
    match r
    case Ok(u) => Ok(Some(u))
    case Failed(e) => Failed(e)
  }

  /** There is no thumbnail exactly when no strategy finds an image. */
  lemma NoThumbnailIff(page: Page, url: string, parse: UrlParser, resolve: Resolver)
    ensures Thumbnail(page, url, parse, resolve) == Ok(None) <==>
      !Given(page.ogImage) && !Given(page.twitterImage) && !Given(page.articleImage)
      && forall k :: 0 <= k < |page.images| ==> !Large(page.images[k])
  {
    var large := Filter(page.images, Large);
    if forall k :: 0 <= k < |page.images| ==> !Large(page.images[k]) {
      FilterNone(page.images, Large);
      assert |Candidates(page.images)| == |large|;
    } else {
      var k :| 0 <= k < |page.images| && Large(page.images[k]);
      assert page.images[k] in large;
      assert page.images[k] in multiset(Candidates(page.images));
    }
  }

  /**
   * When the meta tags and the article give nothing, the image taken is a
   * large image of the page with the largest area among the large ones
   * (one without a source gives the empty address).
   */
  lemma LargestWins(page: Page, url: string, parse: UrlParser, resolve: Resolver)
    requires Candidates(page.images) != []
    ensures var c := Candidates(page.images)[0];
      c in page.images && Large(c)
      && forall k :: 0 <= k < |page.images| && Large(page.images[k]) ==> Area(page.images[k]) <= Area(c)
    ensures var c := Candidates(page.images)[0];
      !Given(page.ogImage) && !Given(page.twitterImage) && !Given(page.articleImage) ==>
        Thumbnail(page, url, parse, resolve) ==
          Lift(NormalizeUrl(if c.src.Some? then c.src.value else [], url, parse, resolve))
  {
    var large := Filter(page.images, Large);
    var sorted := Candidates(page.images);
    assert TotalPreorder(LargerFirst);
    SortBySorted(large, LargerFirst);
    assert sorted[0] in multiset(large);
    forall k | 0 <= k < |page.images| && Large(page.images[k])
      ensures Area(page.images[k]) <= Area(sorted[0])
    {
      var x := page.images[k];
      assert x in large;
      assert x in multiset(sorted);
      var j :| 0 <= j < |sorted| && sorted[j] == x;
      if j > 0 {
        assert LargerFirst(sorted[0], sorted[j]);
      }
    }
  }
}
