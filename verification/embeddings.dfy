/**
 * The document-embedding script (scripts/generate-embeddings.ts): the text
 * of a post is cut into overlapping word windows, each chunk is stored with
 * a title, a type, a visibility and a url chosen from the file path and the
 * front matter, and the files are processed in batches.
 */
module Embeddings {
  import opened Wrappers
  import opened Strings
  import opened Documents
  import Scan

  const ChunkSize: nat := 800
  const ChunkOverlap: nat := 80

  // ---------------------------------------------------------------- chunkArray

  /** The batches laid end to end. */
  function Concat<T>(batches: seq<seq<T>>): seq<T> {
    if batches == [] then [] else Concat(batches[..|batches| - 1]) + batches[|batches| - 1]
  }

  /**
   * `chunkArray`: consecutive batches of `size` items, the last one
   * possibly shorter. With a size of zero or less the loop never ends
   * unless the array is empty.
   */
  method ChunkArray<T>(items: seq<T>, size: int) returns (batches: seq<seq<T>>)
    requires size > 0 || items == []
    ensures Concat(batches) == items
    ensures forall k :: 0 <= k < |batches| ==> 0 < |batches[k]| <= size
    ensures forall k :: 0 <= k < |batches| - 1 ==> |batches[k]| == size
  {
    batches := [];
    var i := 0;
    while i < |items|
      invariant 0 <= i
      invariant Concat(batches) == items[..if i <= |items| then i else |items|]
      invariant forall k :: 0 <= k < |batches| ==> 0 < |batches[k]| <= size
      invariant i <= |items| ==> forall k :: 0 <= k < |batches| ==> |batches[k]| == size
      invariant forall k :: 0 <= k < |batches| - 1 ==> |batches[k]| == size
      decreases |items| - i
    {
      var batch := if i + size <= |items| then items[i..i + size] else items[i..];
      ConcatSnoc(batches, batch);
      SliceJoin(items, i, if i + size <= |items| then i + size else |items|);
      batches := batches + [batch];
      i := i + size;
    }
    assert items[..|items|] == items;
  }

  lemma ConcatSnoc<T>(batches: seq<seq<T>>, batch: seq<T>)
    ensures Concat(batches + [batch]) == Concat(batches) + batch
  {
    assert (batches + [batch])[..|batches|] == batches;
  }

  lemma SliceJoin<T>(items: seq<T>, i: nat, j: nat)
    requires i <= j <= |items|
    ensures items[..i] + items[i..j] == items[..j]
  {
  }

  // ---------------------------------------------------------------- splitIntoChunks

  /** `text.split(/\s+/)`. */
  function Words(text: string): seq<string> {
    Scan.Split(text, Scan.RunOf(IsSpace, 1))
  }

  /** `words.slice(start, start + size)`. */
  function Window(words: seq<string>, size: nat, start: nat): (w: seq<string>)
    requires start <= |words|
    ensures |w| <= size
  {
    if start + size <= |words| then words[start..start + size] else words[start..]
  }

  /** The chunk text of a window: its words joined with single spaces, then trimmed. */
  function ChunkText(window: seq<string>): string {
    Trim(Join(window, " "))
  }

  /**
   * The chunks of the windows starting at `i`, `i + size - 80`, …: the
   * `text` of each window, blank ones skipped. `splitIntoChunks` scans
   * with `ChunkText`; the shape of the scan does not depend on it.
   */
  function ChunksBy(words: seq<string>, size: nat, i: nat, text: seq<string> -> string): (r: seq<string>)
    requires size > ChunkOverlap
    decreases |words| - i
  {
    if i >= |words| then []
    else Kept(text(Window(words, size, i))) + ChunksBy(words, size, i + size - ChunkOverlap, text)
  }

  /** The `if (chunk.trim())` test: a blank chunk is not pushed. */
  function Kept(chunk: string): (r: seq<string>)
    ensures |r| <= 1
    ensures r == [] <==> chunk == []
    ensures r != [] ==> r[0] == chunk
  {
    if chunk != [] then [chunk] else []
  }

  /** `splitIntoChunks`: the words of the text, then the loop over window starts. */
  method SplitIntoChunks(text: string, chunkSize: nat) returns (chunks: seq<string>)
    requires chunkSize > ChunkOverlap
    ensures chunks == ChunksBy(Words(text), chunkSize, 0, ChunkText)
  {
    var words := Words(text);
    chunks := ChunkWords(words, chunkSize, ChunkText);
  }

  /** The loop of `splitIntoChunks`: the text of every window, unless blank, is pushed in order. */
  method ChunkWords(words: seq<string>, chunkSize: nat, text: seq<string> -> string) returns (chunks: seq<string>)
    requires chunkSize > ChunkOverlap
    ensures chunks == ChunksBy(words, chunkSize, 0, text)
  {
    chunks := [];
    var i: nat := 0;
    while i < |words|
      invariant chunks + ChunksBy(words, chunkSize, i, text) == ChunksBy(words, chunkSize, 0, text)
    {
      chunks, i := PushChunk(chunks, words, chunkSize, i, text);
    }
  }

  /** One pass of the loop: the text of the window at `i` is pushed unless it is blank. */
  method PushChunk(chunks: seq<string>, words: seq<string>, chunkSize: nat, i: nat, text: seq<string> -> string)
    returns (next: seq<string>, j: nat)
    requires chunkSize > ChunkOverlap && i < |words|
    ensures i < j == i + chunkSize - ChunkOverlap
    ensures next + ChunksBy(words, chunkSize, j, text) == chunks + ChunksBy(words, chunkSize, i, text)
  {
    var chunk := text(Window(words, chunkSize, i));
    next := chunks;
    if chunk != [] {
      next := next + [chunk];
    }
    j := i + chunkSize - ChunkOverlap;
    assert next == chunks + Kept(chunk);
    ChunksStep(chunks, words, chunkSize, i, text);
  }

  /** One window of the scan: its chunk, if kept, comes before the chunks of the windows after it. */
  lemma ChunksStep(done: seq<string>, words: seq<string>, size: nat, i: nat, text: seq<string> -> string)
    requires size > ChunkOverlap && i < |words|
    ensures done + ChunksBy(words, size, i, text)
      == (done + Kept(text(Window(words, size, i)))) + ChunksBy(words, size, i + size - ChunkOverlap, text)
  {
    ConcatAssoc(done, Kept(text(Window(words, size, i))), ChunksBy(words, size, i + size - ChunkOverlap, text));
  }

  /**
   * Where a chunk comes from: chunk `k` of the scan from `i` is the text of
   * the window, of at most `size` words, that starts at the returned index.
   */
  function ChunkWindow(words: seq<string>, size: nat, i: nat, k: nat, text: seq<string> -> string): (s: nat)
    requires size > ChunkOverlap && k < |ChunksBy(words, size, i, text)|
    ensures i <= s < |words|
    ensures ChunksBy(words, size, i, text)[k] == text(Window(words, size, s))
    decreases |words| - i
  {
    assert i < |words|;
    var head := Kept(text(Window(words, size, i)));
    var rest := ChunksBy(words, size, i + size - ChunkOverlap, text);
    if k < |head| then i
    else
      var s := ChunkWindow(words, size, i + size - ChunkOverlap, k - |head|, text);
      assert ChunksBy(words, size, i, text)[k] == rest[k - |head|];
      s
  }

  /** With a text function whose results are already trimmed, no chunk is empty and trimming a chunk changes nothing. */
  lemma {:induction false} ChunksTidy(words: seq<string>, size: nat, i: nat, text: seq<string> -> string)
    requires size > ChunkOverlap
    requires forall w :: Trim(text(w)) == text(w)
    ensures forall k :: 0 <= k < |ChunksBy(words, size, i, text)| ==>
      var c := ChunksBy(words, size, i, text)[k]; c != [] && Trim(c) == c
    decreases |words| - i
  {
    if i < |words| {
      ChunksTidy(words, size, i + size - ChunkOverlap, text);
      var head := Kept(text(Window(words, size, i)));
      var rest := ChunksBy(words, size, i + size - ChunkOverlap, text);
      forall k | 0 <= k < |head + rest|
        ensures (head + rest)[k] != [] && Trim((head + rest)[k]) == (head + rest)[k]
      {
        if k >= |head| {
          assert (head + rest)[k] == rest[k - |head|];
        }
      }
    }
  }

  /** Every chunk `splitIntoChunks` returns is non-empty and already trimmed. */
  lemma SplitChunksTrimmed(words: seq<string>, size: nat)
    requires size > ChunkOverlap
    ensures forall k :: 0 <= k < |ChunksBy(words, size, 0, ChunkText)| ==>
      var c := ChunksBy(words, size, 0, ChunkText)[k]; c != [] && Trim(c) == c
  {
    forall w
      ensures Trim(ChunkText(w)) == ChunkText(w)
    {
      TrimIdempotent(Join(w, " "));
    }
    ChunksTidy(words, size, 0, ChunkText);
  }

  /** Consecutive full windows share their 80 boundary words. */
  lemma WindowsOverlap(words: seq<string>, size: nat, start: nat)
    requires size > ChunkOverlap && start + size <= |words|
    ensures var next := start + size - ChunkOverlap;
      Window(words, size, start)[size - ChunkOverlap..] == Window(words, size, next)[..ChunkOverlap]
  {
    var next := start + size - ChunkOverlap;
    var w := Window(words, size, start);
    var v := Window(words, size, next);
    assert |v| >= ChunkOverlap;
    forall j | 0 <= j < ChunkOverlap
      ensures w[size - ChunkOverlap + j] == v[j]
    {
      assert w[size - ChunkOverlap + j] == words[next + j];
    }
  }

  // ---------------------------------------------------------------- processDocument

  /** The front matter fields the script reads. */
  datatype FrontMatter = FrontMatter(title: Field, docType: Field, visibility: Field)

  /**
   * `path.basename(filePath, '.md')`: the last path segment with a trailing
   * `.md` removed, unless `.md` is the whole segment; a path that is `.md`
   * itself gives the empty name.
   */
  function Basename(path: string): (r: string)
    ensures '/' !in r
    ensures path == ".md" ==> r == []
    ensures path != ".md" && EndsWith(LastSegment(path), ".md") && |LastSegment(path)| > 3 ==>
      r + ".md" == LastSegment(path)
    ensures path != ".md" && !(EndsWith(LastSegment(path), ".md") && |LastSegment(path)| > 3) ==>
      r == LastSegment(path)
  {
    var b := LastSegment(path);
    if path == ".md" then []
    else if EndsWith(b, ".md") && |b| > 3 then
      assert b == b[..|b| - 3] + b[|b| - 3..];
      b[..|b| - 3]
    else b
  }

  /** The text after the last `/`: a suffix without `/` that is the whole path or follows a `/`. */
  function LastSegment(path: string): (r: string)
    ensures '/' !in r
    ensures EndsWith(path, r)
    ensures |r| < |path| ==> path[|path| - |r| - 1] == '/'
  {
    if path == [] || path[|path| - 1] == '/' then []
    else
      var r := LastSegment(path[..|path| - 1]) + [path[|path| - 1]];
      assert path[|path| - |r|..] == path[..|path| - 1][|path| - |r|..] + [path[|path| - 1]];
      r
  }

  /** The type: training, then article, then the front matter's type or `note`. */
  function DocType(path: string, fm: FrontMatter): (t: string)
    ensures Contains(path, "/training/") ==> t == "training"
    ensures !Contains(path, "/training/") && Contains(path, "/posts/") ==> t == "article"
    ensures !Contains(path, "/training/") && !Contains(path, "/posts/") ==> t == OrElse(fm.docType, "note")
  {
    if Includes(path, "/training/") then "training"
    else if Includes(path, "/posts/") then "article"
    else OrElse(fm.docType, "note")
  }

  function Visibility(fm: FrontMatter, docType: string): string {
    OrElse(fm.visibility, if docType == "training" then "private" else "public")
  }

  function Url(path: string, docType: string): Option<string> {
    if docType == "training" then None
    else if docType == "article" then Some("/posts/" + Basename(path))
    else None
  }

  /** The stored title: the document title, with ` (part i/n)` when there is more than one chunk. */
  function ChunkTitle(title: string, i: nat, n: nat): string {
    if n > 1 then title + " (part " + NatToString(i + 1) + "/" + NatToString(n) + ")" else title
  }

  /** The embedded text: the generated context, a blank line and the chunk, or the chunk alone. */
  function WithContext(context: string, chunk: string): string {
    if context != [] then context + "\n\n" + chunk else chunk
  }

  /** One inserted row (the embedding vector and the metadata bookkeeping are not modelled). */
  datatype Row = Row(
    content: string,
    contentWithContext: string,
    title: string,
    docType: string,
    url: Option<string>,
    visibility: string)

  /**
   * The rows `processDocument` inserts for the chunks of one file, given
   * the context generated for each chunk (`''` when generation failed).
   */
  function DocumentRows(path: string, fm: FrontMatter, chunks: seq<string>, contexts: seq<string>): (rows: seq<Row>)
    requires |contexts| == |chunks|
    ensures |rows| == |chunks|
    ensures forall k :: 0 <= k < |rows| ==> rows[k].content == chunks[k]
  {
    var docType := DocType(path, fm);
    var title := OrElse(fm.title, Basename(path));
    seq(|chunks|, k requires 0 <= k < |chunks| =>
      Row(chunks[k], WithContext(contexts[k], chunks[k]), ChunkTitle(title, k, |chunks|),
          docType, Url(path, docType), Visibility(fm, docType)))
  }

  /** Training notes default to private, everything else to public; an explicit visibility wins. */
  lemma VisibilityDefault(fm: FrontMatter, docType: string)
    ensures Truthy(fm.visibility) ==> Visibility(fm, docType) == fm.visibility.text
    ensures !Truthy(fm.visibility) ==> (Visibility(fm, docType) == "private" <==> docType == "training")
  {
  }

  /** Only articles get a url, and it is `/posts/` followed by the file's base name. */
  lemma UrlOnlyForArticles(path: string, docType: string)
    ensures Url(path, docType).Some? <==> docType == "article"
    ensures Url(path, docType).Some? ==>
      StartsWith(Url(path, docType).value, "/posts/") && Url(path, docType).value[7..] == Basename(path)
  {
  }

  /** The title gets a part suffix exactly when the document has more than one chunk. */
  lemma PartSuffixIff(title: string, i: nat, n: nat)
    ensures ChunkTitle(title, i, n) == title <==> n <= 1
    ensures n > 1 ==> StartsWith(ChunkTitle(title, i, n), title + " (part ")
  {
  }

  /** The embedded text ends with the chunk and is the chunk alone exactly when there is no context. */
  lemma ContextPrefix(context: string, chunk: string)
    ensures EndsWith(WithContext(context, chunk), chunk)
    ensures WithContext(context, chunk) == chunk <==> context == []
    ensures context != [] ==> StartsWith(WithContext(context, chunk), context + "\n\n")
  {
  }
}
