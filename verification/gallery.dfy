/**
 * The photo gallery listing: image files of the gallery directory, sorted
 * by name, each with its public path and a caption derived from its name.
 */
module Gallery {
  import opened Wrappers
  import opened Strings
  import opened Sorting
  import Posts

  datatype Photo = Photo(src: string, alt: string, filename: string)

  /** Public path under which the gallery files are served. */
  const PublicDir: string := "/images/gallery/"

  /** `/\.(jpg|jpeg|png|webp|gif|svg)$/i`: an image extension ends the name, in any letter case. */
  predicate IsImageName(name: string) {
    var l := Lower(name);
    EndsWith(l, ".jpg") || EndsWith(l, ".jpeg") || EndsWith(l, ".png")
    || EndsWith(l, ".webp") || EndsWith(l, ".gif") || EndsWith(l, ".svg")
  }

  /** The letter case of a name does not decide whether it is kept. */
  lemma ImageNameIgnoresCase(name: string)
    ensures IsImageName(Lower(name)) == IsImageName(name)
  {
    LowerIdempotent(name);
  }

  /** Index of the last '.' of `s`. */
  function LastDot(s: string): (r: Option<nat>)
    ensures r.Some? ==> r.value < |s| && s[r.value] == '.' && '.' !in s[r.value + 1..]
    ensures r.None? ==> '.' !in s
  {
    if s == [] then None
    else if s[|s| - 1] == '.' then Some(|s| - 1)
    else
      var r := LastDot(s[..|s| - 1]);
      assert s == s[..|s| - 1] + [s[|s| - 1]];
      if r.Some? then
        assert s[r.value + 1..] == s[..|s| - 1][r.value + 1..] + [s[|s| - 1]];
        r
      else r
  }

  /** `replace(/\.[^.]+$/, '')`: drops the last extension, when something follows the last dot. */
  function StripExtension(s: string): (r: string)
    ensures r == s || (|r| + 1 < |s| && s[|r|] == '.' && '.' !in s[|r| + 1..])
    ensures r == s[..|r|]
  {
    match LastDot(s)
    case Some(d) => if d + 1 < |s| then s[..d] else s
    case None => s
  }

  predicate IsJoiner(c: char) { c == '-' || c == '_' }

  /** The caption: the name without its extension, `-` and `_` read as spaces. */
  function Alt(filename: string): (r: string)
    ensures |r| == |StripExtension(filename)|
    ensures '-' !in r && '_' !in r
  {
    ReplaceChars(StripExtension(filename), IsJoiner, ' ')
  }

  /** A name made of a base, a dot and a dot-free extension loses exactly the extension. */
  lemma StripOfNamed(base: string, ext: string)
    requires ext != [] && '.' !in ext
    ensures StripExtension(base + "." + ext) == base
  {
    var s := base + "." + ext;
    assert s[|base|] == '.';
    assert s[|base| + 1..] == ext;
    assert s[..|base|] == base;
  }

  function PhotoOf(filename: string): Photo {
    Photo(PublicDir + filename, Alt(filename), filename)
  }

  function Filenames(photos: seq<Photo>): seq<string> {
    seq(|photos|, k requires 0 <= k < |photos| => photos[k].filename)
  }

  /** `getGalleryPhotos` over the directory listing; `None` is a missing directory. */
  function GalleryPhotos(listing: Option<seq<string>>): (r: seq<Photo>)
    ensures listing.None? ==> r == []
    ensures listing.Some? ==> Filenames(r) == SortBy(Filter(listing.value, IsImageName), StringLe)
    ensures forall k :: 0 <= k < |r| ==>
      r[k].src == PublicDir + r[k].filename && r[k].alt == Alt(r[k].filename) && IsImageName(r[k].filename)
  {
    match listing
    case None => []
    case Some(names) =>
      var files := SortBy(Filter(names, IsImageName), StringLe);
      SortedAreImages(names);
      seq(|files|, k requires 0 <= k < |files| => PhotoOf(files[k]))
  }

  lemma SortedAreImages(names: seq<string>)
    ensures forall n :: n in SortBy(Filter(names, IsImageName), StringLe) ==> IsImageName(n)
  {
    var kept := Filter(names, IsImageName);
    forall n | n in SortBy(kept, StringLe)
      ensures IsImageName(n)
    {
      assert n in multiset(SortBy(kept, StringLe));
      assert n in kept;
    }
  }

  /** The photos are sorted by filename and are exactly the image files of the directory, each once per listing entry. */
  lemma GalleryOrder(names: seq<string>)
    ensures SortedBy(Filenames(GalleryPhotos(Some(names))), StringLe)
    ensures multiset(Filenames(GalleryPhotos(Some(names)))) == multiset(Filter(names, IsImageName))
    ensures forall n :: n in names && IsImageName(n) ==> n in Filenames(GalleryPhotos(Some(names)))
  {
    Posts.StringLeIsPreorder();
    SortBySorted(Filter(names, IsImageName), StringLe);
    var f := Filenames(GalleryPhotos(Some(names)));
    forall n | n in names && IsImageName(n)
      ensures n in f
    {
      assert n in Filter(names, IsImageName);
      assert n in multiset(Filter(names, IsImageName));
      assert n in multiset(f);
    }
  }
}
