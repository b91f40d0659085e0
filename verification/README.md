# my-bttrfly, modelled in Dafny

my-bttrfly is a personal website built with Next.js. It serves a blog read from markdown files and from a Ghost site, a photo gallery with an upload endpoint, and a home feed that mixes posts and photos. It offers a text chat and a voice chat that answer from an embedded knowledge base of the author's writing. The same retrieval step also runs as the `search_knowledge` tool of a Python LiveKit voice agent. Beside these it has:

- a speech normaliser that prepares answers for text-to-speech;
- a voice-chat metrics collector and the route that aggregates its records;
- GitHub activity statistics;
- news summaries: batch summaries, category prompts, a template summary generator, the RSS feed list and thumbnail extraction;
- a prompt history kept in the browser;
- the chat widget that reads the chat stream;
- two games, 2048 and Snake.

This project models the deterministic core of each of these parts and proves what the code promises about it.

Each source file has a module of the same name (one `.dfy` file per module). Six modules hold what several parts share:

- `Wrappers`: `Option` and `Result`;
- `Strings`: JavaScript string semantics such as `trim`, `split`, `join`, `substring` and ASCII `toLowerCase`;
- `Scan`: the leftmost, non-overlapping regular-expression scan behind `replace`, `match` and `split`;
- `Sorting`: a stable comparator sort, `filter`, `slice` and first-occurrence de-duplication;
- `Documents`: a row of the similarity search and how its optional fields are rendered;
- `Json`: JSON string literals as the chat stream uses them.

**External services are parameters.** The embedding model, the vector database, the reranker, the chat and speech models, the GitHub and Ghost APIs, the file system and local storage appear as function parameters or given values. A thrown exception becomes a `Failed` value.

**Randomness and the clock are inputs.** Random draws (new tiles, food, fillers, ids) and the clock (`Date.now()`, calendar fields) are passed in as arguments.

**Code that changes state step by step is imperative Dafny.** This covers the 2048 move and game-over loops, the Snake tick, the prompt-history store, the metrics collector, the feed builder, the chunker, the stream reader and the streak counter. These are methods or classes, and each is proved against a specification function.

**Where the written description and the code differ, the model follows the code.** For example, the Python agent defaults a missing title with `doc.get('title', '제목 없음')`. That default applies only when the key is absent, not when the title is empty, and `Documents.PyGet` models it that way. The TypeScript routes default on any empty title.

## Model

| member | source | states |
|---|---|---|
| BatchSummaries.Blocks | app/api/generate-batch-summaries/route.ts:42-52 | one block per article, in order, the `i`-th numbered `i + 1` |
| BatchSummaries.Numbers | app/api/generate-batch-summaries/route.ts:40 | the marker numbers listed in the prompt are `1` to `n` |
| BatchSummaries.JoinHasPiece | app/api/generate-batch-summaries/route.ts:52 | every joined block occurs in the joined text |
| BatchSummaries.PromptListsArticles | app/api/generate-batch-summaries/route.ts:40-62 | every article's block, with its id and title, is part of the user prompt |
| BatchSummaries.RequestFor | app/api/generate-batch-summaries/route.ts:67-81 | the token budget is 500 per article, and the system prompt is the one given when it is truthy and the default one otherwise |
| BatchSummaries.Segments | app/api/generate-batch-summaries/route.ts:86 | the segments are exactly the pieces of the split that are not blank, in order |
| BatchSummaries.Texts | app/api/generate-batch-summaries/route.ts:56-60 | the texts of the sections of a reply, in order |
| BatchSummaries.MarkerMatches | app/api/generate-batch-summaries/route.ts:86 | `/---ARTICLE_\d+---/` matches a whole marker, whatever follows it |
| BatchSummaries.NoMatchAt | app/api/generate-batch-summaries/route.ts:86 | no match of the pattern starts inside a text free of the marker head, up to the next marker |
| BatchSummaries.MatcherIsLocal | app/api/generate-batch-summaries/route.ts:86 | whether the pattern matches at a position depends only on the text from that position on |
| BatchSummaries.SplitShift | app/api/generate-batch-summaries/route.ts:86 | splitting does not look at the text before its starting point |
| BatchSummaries.SplitSkip | app/api/generate-batch-summaries/route.ts:86 | a stretch of text where the pattern does not match is passed over by the split |
| BatchSummaries.PiecesOfFree | app/api/generate-batch-summaries/route.ts:86 | a text free of markers is split into itself alone |
| BatchSummaries.NoMatchBefore | app/api/generate-batch-summaries/route.ts:86 | no match starts inside a marker-free text followed by something that starts like a marker |
| BatchSummaries.MarkerMatchesAt | app/api/generate-batch-summaries/route.ts:86 | a marker placed after a text matches where it stands |
| BatchSummaries.SplitAtFirstMatch | app/api/generate-batch-summaries/route.ts:86 | the text before the first match is the first piece and the rest is split as if it stood alone |
| BatchSummaries.MarkerStep | app/api/generate-batch-summaries/route.ts:86 | around a marker that follows a marker-free text, the match is at the marker and nowhere before it |
| BatchSummaries.PiecesStep | app/api/generate-batch-summaries/route.ts:86 | a marker-free text, a marker and a rest split into the text followed by the pieces of the rest |
| BatchSummaries.PiecesOfReply | app/api/generate-batch-summaries/route.ts:56-86 | a reply cut at its markers gives back the preamble and the section texts, whatever numbers the markers carry |
| BatchSummaries.SegmentsOfReply | app/api/generate-batch-summaries/route.ts:86 | with a blank preamble and non-blank sections, the segments are exactly the section texts |
| BatchSummaries.PreambleShifts | app/api/generate-batch-summaries/route.ts:86-93 | a non-blank preamble becomes the first segment, so every summary is given to the article after its own |
| BatchSummaries.Results | app/api/generate-batch-summaries/route.ts:89-93 | one result per article, in order |
| BatchSummaries.ResultsByPosition | app/api/generate-batch-summaries/route.ts:89-93 | each result carries its article's id; it succeeds exactly when a segment exists at its position, with that segment trimmed (never empty), and otherwise carries the failure text with the 1-based number |
| BatchSummaries.Successes | app/api/generate-batch-summaries/route.ts:95-101 | the successful count never exceeds the number of results |
| BatchSummaries.SuccessesCount | app/api/generate-batch-summaries/route.ts:89-101 | among the first `k` results, as many succeed as there are segments, capped at `k` |
| BatchSummaries.CaughtError | app/api/generate-batch-summaries/route.ts:105-128 | every caught error is a server error; an error whose message mentions the API key gets the configuration message, any other its own message as details |
| BatchSummaries.Post | app/api/generate-batch-summaries/route.ts:18-103 | a missing or empty article list is answered with 400; a body that does not parse or a failed completion goes to the catch; a processed answer has one result per article, the count of successes and the timestamp |
| BatchSummaries.SuccessfulCount | app/api/generate-batch-summaries/route.ts:89-101 | the successful count is the smaller of the number of articles and the number of segments |
| BatchSummaries.WellFormedReply | app/api/generate-batch-summaries/route.ts:56-93 | a reply that marks one non-blank summary per article after a blank preamble gives every article its own summary, trimmed, as a success |
| CategoryPrompts.FromName | lib/prompts/category-prompts.ts:3-25 | a text found among the category keys is that category's key |
| CategoryPrompts.Classify | lib/prompts/category-prompts.ts:23-44 | a normalised text selects the category with that key, else the category its alias maps to; `constructor` and `__proto__` select no category, since the plain-object map answers for them with an inherited member; any other text selects `general` |
| CategoryPrompts.NoCategoryExactlyInherited | lib/prompts/category-prompts.ts:27-44 | a text selects no category exactly when it is one of the inherited keys |
| CategoryPrompts.NormalizeCategory | lib/prompts/category-prompts.ts:17-45 | an empty, null or missing category is `general`; any other is classified after lower-casing and trimming, and may select no category |
| CategoryPrompts.NameIsNormal | lib/prompts/category-prompts.ts:3-20 | every category key is its own normal form |
| CategoryPrompts.AllListed | lib/prompts/category-prompts.ts:3-12 | every category is in the list of categories |
| CategoryPrompts.NormalizeIdempotent | lib/prompts/category-prompts.ts:17-45 | when a category is selected, normalising its key gives that category again |
| CategoryPrompts.KeySelectsItself | lib/prompts/category-prompts.ts:17-25 | every category key, given as input, selects its own category |
| CategoryPrompts.NormalizedIsFixed | lib/prompts/category-prompts.ts:20 | lower-casing and trimming twice is the same as once |
| CategoryPrompts.IgnoresCaseAndSpace | lib/prompts/category-prompts.ts:20 | the letter case and surrounding whitespace of a category do not change the result |
| CategoryPrompts.Aliases | lib/prompts/category-prompts.ts:28-41 | `tech`, `biz`, `sport`, `politic`, `medical`, `medicine` and `sci` select their categories |
| CategoryPrompts.WordAsGiven | lib/prompts/category-prompts.ts:17-45 | a lower-case word is classified as given, so the aliases apply to the input itself |
| CategoryPrompts.OthersAreGeneral | lib/prompts/category-prompts.ts:39-44 | a text that is neither a key nor an alias selects `general`, unless it is an inherited key, which selects no category |
| CategoryPrompts.InheritedInputs | lib/prompts/category-prompts.ts:17-45 | the category `constructor` selects no category, and the synchronous prompt lookup for it fails |
| CategoryPrompts.InheritedKeyInput | lib/prompts/category-prompts.ts:20-41 | an input that lower-cases to an inherited key with nothing to trim selects no category |
| CategoryPrompts.DefaultPrompts | lib/prompts/category-prompts.ts:54-189 | every category has a default entry that names that category and carries its system prompt |
| CategoryPrompts.CategoryPromptSync | lib/prompts/category-prompts.ts:215-218 | the default system prompt of the normalised category; a failure (the `TypeError` of reading a missing entry) exactly when no category is selected |
| CategoryPrompts.CategoryPromptFor | lib/prompts/category-prompts.ts:192-212 | the stored prompt when in the browser the request succeeds with a non-empty one; otherwise the default of the normalised category, or a failure when no category is selected |
| CategoryPrompts.Find | lib/prompts/category-prompts.ts:288 | the prompt found is the one at the first position holding that category; none is found exactly when no stored prompt has it |
| CategoryPrompts.FindsFirst | lib/prompts/category-prompts.ts:288 | the first stored prompt with the category is the one found |
| CategoryPrompts.CustomPrompt | lib/prompts/category-prompts.ts:288-289 | the text of the first stored prompt for the category when it is non-empty; none when the category is missing or that text is empty |
| CategoryPrompts.AllCustomPrompts | lib/prompts/category-prompts.ts:276-295 | every category has an entry; all are null on the server or after a failed fetch, otherwise each is the category's custom prompt |
| ChatRoute.Validate | app/api/chat/route.ts:55-67 | a message passes exactly when it is a string that is not blank after trimming and at most 4000 UTF-16 units long; a rejection is a 400 error |
| ChatRoute.LastN | app/api/chat/route.ts:135 | the last `n` elements, or all of them when there are fewer |
| ChatRoute.ToSource | app/api/chat/route.ts:140-147 | a source is built exactly when the document's content is a string |
| ChatRoute.ToSources | app/api/chat/route.ts:140-148 | the sources are built exactly when every document has string content, one per document, in order |
| ChatRoute.Chat | app/api/chat/route.ts:50-219 | a rejected message gets its 400 reply; a failed embedding is a 500; the search asks for threshold 0.5 and count 5, and its failure is a 500 with no stream; otherwise the stream carries the system prompt with the context, the last history messages and the question, and the sources of the documents found (a document without content is a 500) |
| ChatRoute.RejectedBeforeServices | app/api/chat/route.ts:55-67 | a rejected message gets a 400 reply whatever the services would answer |
| ChatRoute.MessageOrder | app/api/chat/route.ts:119-137 | the model sees the persona with the context, then the last at most six history messages in order, then the question |
| ChatRoute.SameContextAsVoice | app/api/chat/route.ts:106-116 | the context is the same numbered blocks, or the same sentence when nothing was found, as the voice route builds |
| ChatRoute.SourcePreview | app/api/chat/route.ts:144-145 | a source's preview is the longest prefix of the content within 200 UTF-16 units (the next character would not fit) followed by `...`, and it has a URL exactly when the document has a non-empty one |
| ChatStream.ContentEvents | app/api/chat/route.ts:171-178 | one content event per non-empty delta, in order, and no other event; never more events than deltas |
| ChatStream.EventOrder | app/api/chat/route.ts:157-198 | the sources come first, then only non-empty content events, and last `done` exactly when nothing was thrown, `error` otherwise |
| ChatStream.EventText | app/api/chat/route.ts:171-178 | the content events carry exactly the model's text, all non-empty deltas concatenated in arrival order |
| ChatStream.NoBreakInEvent | app/api/chat/route.ts:158-196 | the JSON text of every event holds no line break, so every event is one line |
| ChatStream.StreamChunks | app/api/chat/route.ts:153-201 | the enqueued chunks are the events of the stream, each encoded as JSON and ended by a line break, in order |
| ChatStream.Lines | app/api/chat/route.ts:158-196 | one line per event, line `k` being event `k` encoded and terminated by a line break |
| ChatWidget.DecodeEncoded | components/ChatWidget.tsx:413-443 | every line the endpoint writes parses back to the chunk of its own event |
| ChatWidget.DispatchEncoded | components/ChatWidget.tsx:409-449 | a line of the endpoint is never blank and is applied as its event: sources replace the sources, content is appended, `done` ends streaming, an error is only logged |
| ChatWidget.ProcessAppend | components/ChatWidget.tsx:409-449 | dispatching two batches of lines one after the other is dispatching them all at once |
| ChatWidget.DispatchLines | components/ChatWidget.tsx:409-449 | the view after dispatching the complete lines of one read, in order |
| ChatWidget.Pieces | components/ChatWidget.tsx:406 | splitting at line breaks gives at least one piece and no piece holds a line break |
| ChatWidget.PiecesJoin | components/ChatWidget.tsx:406-407 | joining the pieces with line breaks gives back the text |
| ChatWidget.PiecesOfJoin | components/ChatWidget.tsx:406-407 | lines without breaks, joined with breaks, split back into the same lines |
| ChatWidget.ReadStream | components/ChatWidget.tsx:397-450 | the buffer left over is the last piece of everything received and the view is every complete line dispatched in order, whatever the chunking |
| ChatWidget.WidgetReadsEndpoint | components/ChatWidget.tsx:397-450 | reading the endpoint's stream, however it is chunked, leaves an empty buffer and applies every event in order |
| ChatWidget.ReplayContent | components/ChatWidget.tsx:421-433 | the text shown after the whole stream is exactly the concatenated content of the events |
| ChatWidget.LeadingDigits | components/ChatWidget.tsx:953-955 | only digits are read as the cited number |
| ChatWidget.CitedIndices | components/ChatWidget.tsx:959 | the positions kept are exactly those below the source count whose number is cited, in ascending order |
| ChatWidget.CitedSources | components/ChatWidget.tsx:950-959 | never more cited sources than sources |
| ChatWidget.Pick | components/ChatWidget.tsx:959 | the sources at the given positions, in that order |
| ChatWidget.MarkerRead | components/ChatWidget.tsx:953-955 | the marker text for a number `n` is read back as exactly the number `n` |
| ChatWidget.MarkerCites | components/ChatWidget.tsx:950-959 | content whose one marker is `n` shows exactly source `n` when there is one, and nothing otherwise |
| ChatWidget.NoMarkerNoSources | components/ChatWidget.tsx:950-959 | content without a `[` shows no source |
| ChatWidget.Matching | components/ChatWidget.tsx:785-789 | a command is listed exactly when its command or its description, lower-cased, contains the search term |
| ChatWidget.MatchingAppend | components/ChatWidget.tsx:785-789 | the filter keeps the commands in their order: the matches of two lists one after the other are the matches of each, in that order, and one command is kept exactly when it matches |
| ChatWidget.OnInput | components/ChatWidget.tsx:783-797 | input starting with `/` lists the matching commands with the first selected; the palette is shown exactly for such input with a match; other input clears the list |
| ChatWidget.Navigate | components/ChatWidget.tsx:801-829 | with the palette shown, arrow down moves to the next command and arrow up to the previous one, never past either end; Enter without Shift runs the selected command, and it and Escape clear the input and hide the palette; other keys, Shift+Enter and a hidden palette change nothing |
| ChatWidget.NavigateKeepsInRange | components/ChatWidget.tsx:801-829 | every key keeps the selection of a shown palette on a listed command |
| ChatWidget.SelectionStaysInRange | components/ChatWidget.tsx:783-829 | after any key sequence from the palette an input shows, a shown palette selects a listed command |
| ChatWidget.Greeting | components/ChatWidget.tsx:246-257 | morning from 5 to 11, afternoon from 12 to 16, evening from 17 to 21, and `Still up?` at every other hour |
| ChatWidget.HistorySent | components/ChatWidget.tsx:381 | the last six messages, or all of them when there are fewer, in order |
| ContentExtractor.NormalizeUrl | lib/extraction/content-extractor.ts:99-119 | an empty address stays empty, one starting with `http` is unchanged, one starting with `//` gets `https:` in front, one starting with `/` is joined to the page's protocol and host, and a page address that does not parse is an error |
| ContentExtractor.NormalizeSettles | lib/extraction/content-extractor.ts:99-114 | normalising an address produced by the first four branches again changes nothing, for a page served over http or https |
| ContentExtractor.Candidates | lib/extraction/content-extractor.ts:79-91 | the candidates are a permutation of the images at least 400 wide and 300 high |
| ContentExtractor.Thumbnail | lib/extraction/content-extractor.ts:60-76 | the first of og:image, twitter:image and the first article image that is present wins, normalised against the page address |
| ContentExtractor.NoThumbnailIff | lib/extraction/content-extractor.ts:60-94 | there is no thumbnail exactly when no meta tag or article image is present and no image is large enough |
| ContentExtractor.LargestWins | lib/extraction/content-extractor.ts:78-93 | failing the first three strategies, the thumbnail is a large image of the page whose area is the largest among the large images |
| Embeddings.ChunkArray | scripts/generate-embeddings.ts:219-225 | the batches laid end to end are the items; every batch is non-empty and at most `size` long, and every batch but the last is exactly `size` long |
| Embeddings.Window | scripts/generate-embeddings.ts:43 | a window holds at most `size` words |
| Embeddings.Kept | scripts/generate-embeddings.ts:44-46 | a blank chunk is dropped and any other kept unchanged |
| Embeddings.SplitIntoChunks | scripts/generate-embeddings.ts:38-49 | the chunks are the non-blank texts of the word windows starting every `size - 80` words, in order |
| Embeddings.ChunkWords | scripts/generate-embeddings.ts:42-47 | the loop pushes the text of every window, unless blank, in order |
| Embeddings.PushChunk | scripts/generate-embeddings.ts:42-47 | one pass advances the start by `size - 80` words and pushes the window's text unless it is blank |
| Embeddings.ChunkWindow | scripts/generate-embeddings.ts:42-45 | every chunk is the text of some window that starts within the words |
| Embeddings.SplitChunksTrimmed | scripts/generate-embeddings.ts:43-45 | every chunk returned is non-empty and already trimmed |
| Embeddings.WindowsOverlap | scripts/generate-embeddings.ts:32-43 | consecutive full windows share their 80 boundary words |
| Embeddings.Basename | scripts/generate-embeddings.ts:136-177 | the base name is the last path segment with a trailing `.md` removed, unless `.md` is the whole segment; the path `.md` itself gives the empty name |
| Embeddings.LastSegment | scripts/generate-embeddings.ts:136-177 | the last path segment is a suffix without `/` that is the whole path or follows a `/` |
| Embeddings.DocType | scripts/generate-embeddings.ts:138-146 | training when the path is under `/training/`, else article under `/posts/`, else the front matter's type or `note` |
| Embeddings.DocumentRows | scripts/generate-embeddings.ts:128-200 | one row per chunk, in order, each storing its chunk as the shown content |
| Embeddings.VisibilityDefault | scripts/generate-embeddings.ts:151 | an explicit visibility wins; otherwise a document is private exactly when it is a training note |
| Embeddings.UrlOnlyForArticles | scripts/generate-embeddings.ts:175-178 | only articles get a url, and it is `/posts/` followed by the file's base name |
| Embeddings.PartSuffixIff | scripts/generate-embeddings.ts:184 | the title gets a ` (part i/n)` suffix exactly when the document has more than one chunk |
| Embeddings.ContextPrefix | scripts/generate-embeddings.ts:166-169 | the embedded text ends with the chunk, is the chunk alone exactly when there is no context, and otherwise starts with the context and a blank line |
| Gallery.ImageNameIgnoresCase | lib/gallery.ts:23 | whether a name is kept does not depend on its letter case (the `i` flag) |
| Gallery.LastDot | lib/gallery.ts:28 | the index found holds a dot and no dot follows it; `None` exactly for a name without a dot |
| Gallery.StripExtension | lib/gallery.ts:28 | the result is a prefix of the name: either the whole name, or the part before a last dot that has at least one character after it |
| Gallery.Alt | lib/gallery.ts:28 | the caption is as long as the name without its extension and holds no `-` or `_` |
| Gallery.StripOfNamed | lib/gallery.ts:28 | a base, a dot and a non-empty dot-free extension lose exactly the dot and the extension |
| Gallery.GalleryPhotos | lib/gallery.ts:16-31 | no directory gives no photos; otherwise the filenames are the image names of the listing sorted by UTF-16 order, each photo with its public path and caption |
| Gallery.SortedAreImages | lib/gallery.ts:22-24 | every sorted name passed the image filter |
| Gallery.GalleryOrder | lib/gallery.ts:22-30 | the photos are in filename order and are exactly the image files of the listing, each as often as listed |
| GalleryUpload.Ext | app/api/gallery/upload/route.ts:54 | the extension is empty or a dot followed by no further dot, it is a proper suffix of the name, and a name without a dot has none |
| GalleryUpload.BaseName | app/api/gallery/upload/route.ts:55 | the base name followed by the extension gives back the uploaded name |
| GalleryUpload.SanitizeChar | app/api/gallery/upload/route.ts:55 | a character of the class `[a-zA-Z0-9-_]` is kept as it is; any other becomes one `_` per UTF-16 code unit, so the JavaScript length is kept |
| GalleryUpload.Sanitize | app/api/gallery/upload/route.ts:55 | the sanitised base name is made only of ASCII letters, digits, `-` and `_`, and is no shorter than the base name |
| GalleryUpload.SanitizeKeepsJsLen | app/api/gallery/upload/route.ts:55 | sanitising keeps the JavaScript length of the base name |
| GalleryUpload.SanitizeBmp | app/api/gallery/upload/route.ts:55 | on a name inside the Basic Multilingual Plane, position by position, a safe character is kept and every other character becomes `_` |
| GalleryUpload.SanitizeOfSafe | app/api/gallery/upload/route.ts:55 | a base name already made of safe characters is left unchanged |
| GalleryUpload.StoredNameShape | app/api/gallery/upload/route.ts:53-57 | the stored name starts with the sanitised base name and ends with the uploaded extension |
| GalleryUpload.StampedSafe | app/api/gallery/upload/route.ts:55-57 | everything before the extension in the stored name is safe characters |
| GalleryUpload.SafeNoDot | app/api/gallery/upload/route.ts:55 | a sanitised string holds no dot |
| GalleryUpload.LastDotOfExt | app/api/gallery/upload/route.ts:57 | the last dot of a dot-free prefix followed by an extension is the extension's dot |
| GalleryUpload.LastDotOfDotless | app/api/gallery/upload/route.ts:57 | a dot-free name has no last dot |
| GalleryUpload.StoredNameKeepsExt | app/api/gallery/upload/route.ts:54-57 | the stored file has the same extension as the uploaded one |
| GalleryUpload.FileEntries | app/api/gallery/upload/route.ts:39-40 | the file entries are exactly the form entries whose key starts with `file-` |
| GalleryUpload.Get | app/api/gallery/upload/route.ts:47 | `None` exactly when no entry has the key; otherwise the value of the first entry with that key |
| GalleryUpload.MetadataKey | app/api/gallery/upload/route.ts:45-46 | the metadata key is `metadata-` followed by the index that follows `file-` in the file key |
| GalleryUpload.MetadataText | app/api/gallery/upload/route.ts:47-64 | there is metadata text exactly when the paired metadata entry exists and is a non-empty string, and it is that string |
| GalleryUpload.Writes | app/api/gallery/upload/route.ts:42-61 | no more files are written than file entries are processed |
| GalleryUpload.StoreFile | app/api/gallery/upload/route.ts:45-71 | the file is written with its bytes under the name the namer gives it (`Upload` passes `StoredName`), and the record gains its parsed metadata under that name, if any parses |
| GalleryUpload.Upload | app/api/gallery/upload/route.ts:39-72 | the loop writes the files and merges the metadata that the per-entry definitions give, in form order |
| GalleryUpload.WrittenAsStep | app/api/gallery/upload/route.ts:42-61 | a name is written by the first `n` file entries exactly when it was written before the last of them, or is that entry's stored name |
| GalleryUpload.MergedKeepsOthers | app/api/gallery/upload/route.ts:36-67 | a stored record entry that no uploaded file is written over keeps its metadata |
| GalleryUpload.MergedOnlyWritten | app/api/gallery/upload/route.ts:67 | the record gains entries only under the names of uploaded files |
| GalleryUpload.MergedRecords | app/api/gallery/upload/route.ts:64-71 | a file whose metadata parses has that metadata under its stored name, unless a later file is stored under the same name |
| GalleryUpload.MergedWithoutMetadata | app/api/gallery/upload/route.ts:64-71 | when no file comes with metadata that parses, the record is left exactly as loaded |
| GalleryUpload.WritesOneEach | app/api/gallery/upload/route.ts:42-61 | one file is written per file entry holding a `File`, in order, each under its stored name |
| GalleryUpload.WritesFromFiles | app/api/gallery/upload/route.ts:43-61 | every written file comes from some file entry holding a `File` |
| GalleryUpload.LoadMetadata | app/api/gallery/upload/route.ts:15-22 | a non-empty record comes only from content that was read and parsed to exactly that record; a failed read or parse gives the empty record |
| GalleryUpload.LoadAfterSave | app/api/gallery/upload/route.ts:15-26 | a record saved with `JSON.stringify` is loaded back unchanged, given that parsing undoes it |
| Game2048.NonZero | components/Game2048.tsx:45 | the filtered row holds only tiles and is no longer than the row |
| Game2048.NonZeroSum | components/Game2048.tsx:45 | dropping the empty cells keeps the row's total |
| Game2048.MergeFrom | components/Game2048.tsx:48-57 | each merge turns two tiles into one, so tiles plus merges is the input length and at most half the tiles merge |
| Game2048.MergeFromSum | components/Game2048.tsx:48-57 | merging keeps the total of the tiles, and tiles stay non-zero |
| Game2048.MergeFromScore | components/Game2048.tsx:49-52 | on positive tiles the score gained is never negative, and it is positive exactly when something merged |
| Game2048.MergeFromNone | components/Game2048.tsx:48-57 | nothing merges exactly when no two neighbours are equal, and then the tiles are unchanged |
| Game2048.Pad | components/Game2048.tsx:59-61 | the row is filled with zeros up to four cells, keeping its tiles at the front |
| Game2048.SlideRow | components/Game2048.tsx:44-67 | a slid row has four cells: the merged tiles followed by zeros, with the row's total kept |
| Game2048.SlideNonZero | components/Game2048.tsx:45-61 | the tiles of a slid row are the merged tiles |
| Game2048.MergeChangesRow | components/Game2048.tsx:53-65 | a merge always changes the row, so the two ways `moved` is set agree |
| Game2048.StuckRow | components/Game2048.tsx:44-67 | a full row with no two equal neighbours does not move |
| Game2048.SlideAll | components/Game2048.tsx:44-68 | every row of the board slid to the left |
| Game2048.MovedIffBoardChanged | components/Game2048.tsx:40-65 | `moved` is true exactly when the slid board differs from the board |
| Game2048.Rotate | components/Game2048.tsx:73-81 | the cell at row `i`, column `j` goes to row `j`, column `3 - i` |
| Game2048.RotateNAdd | components/Game2048.tsx:93-95 | turning `a` times and then `b` times is turning `a + b` times |
| Game2048.HalfTurn | components/Game2048.tsx:73-81 | two quarter turns turn every cell around the centre |
| Game2048.FourRotations | components/Game2048.tsx:73-99 | four quarter turns give back the board |
| Game2048.GameOverRotate | components/Game2048.tsx:115-132 | a finished board stays finished when turned |
| Game2048.GameOverStuck | components/Game2048.tsx:115-132 | on a finished board, sliding to the left changes nothing |
| Game2048.GameOverNoMove | components/Game2048.tsx:93-132 | on a finished board, no number of turns lets a slide move anything |
| Game2048.Rotations | components/Game2048.tsx:86-89 | fewer than four quarter turns make each direction "left" |
| Game2048.TurnsBack | components/Game2048.tsx:99 | the turns back complete a full turn with the turns made |
| Game2048.AfterMoveAsWritten | components/Game2048.tsx:91-101 | the board `move` keeps, as written, stays 4 by 4; what it is for each direction is stated by `Game2048.AsWrittenAgainstIntended` |
| Game2048.AsWrittenAgainstIntended | components/Game2048.tsx:86-101 | as written, `move` keeps the board from before the move for left, the intended board for up, the intended board turned three more quarter turns for right, and the intended board turned half round for down |
| Game2048.LeftMoveIgnored | components/Game2048.tsx:97-105 | a board where a left slide moves a tile: `moved` is set, yet as written the board stays the same while the intended move changes it |
| Game2048.AfterMove | components/Game2048.tsx:83-101 | the corrected move is 4 by 4 |
| Game2048.MoveIsTurnedSlide | components/Game2048.tsx:86-101 | the corrected move, seen from the turned board, is the left slide of the turned board |
| Game2048.MoveLeftIsSlide | components/Game2048.tsx:86-97 | the corrected move to the left is the left slide |
| Game2048.EmptyCellsSpec | components/Game2048.tsx:24-31 | the cells listed are exactly the empty ones |
| Game2048.PickIndex | components/Game2048.tsx:34 | the drawn position lies among the empty cells |
| Game2048.TileValue | components/Game2048.tsx:35 | a new tile is a 2 or a 4 |
| Game2048.Spawn | components/Game2048.tsx:23-37 | the board stays 4 by 4 |
| Game2048.SpawnOnFull | components/Game2048.tsx:27-33 | a board has no empty cell exactly when every cell holds a tile, and then nothing is spawned |
| Game2048.SpawnOneTile | components/Game2048.tsx:33-36 | on a board with room, exactly one empty cell becomes a 2 or a 4 and every other cell stays |
| Game2048.SpawnAddsTile | components/Game2048.tsx:33-36 | a spawn on a board with room adds exactly one tile |
| Game2048.InitTwoTiles | components/Game2048.tsx:16-21 | a new board has exactly two tiles |
| Game2048.NewBoard | components/Game2048.tsx:17 | a fresh 4 by 4 board of zeros |
| Game2048.CopyBoard | components/Game2048.tsx:42-91 | a fresh board with the same cells |
| Game2048.RotateBoard | components/Game2048.tsx:73-81 | a fresh board holding the quarter turn of the cells |
| Game2048.IsGameOver | components/Game2048.tsx:115-132 | true exactly when no cell is empty and no two neighbours in a row or a column are equal |
| Game2048.CollectEmpty | components/Game2048.tsx:24-31 | the empty cells, row by row, left to right |
| Game2048.AddRandomTile | components/Game2048.tsx:23-37 | the board becomes the spawn of the drawn value in the drawn empty cell, and nothing else changes |
| Game2048.FilterRow | components/Game2048.tsx:45 | the tiles of the row, in order |
| Game2048.MergeRow | components/Game2048.tsx:46-57 | the merged tiles, the score gained and whether a merge happened, as the merge specification gives them |
| Game2048.NewRow | components/Game2048.tsx:45-61 | the slid row, four cells long, with its score and merge flag |
| Game2048.MoveLeft | components/Game2048.tsx:39-71 | a fresh board holding every row slid to the left; `moved` and the score gained as the row-by-row specification gives them |
| Game2048.InitBoard | components/Game2048.tsx:16-21 | a fresh board of zeros with two tiles spawned |
| Game2048.TurnBoard | components/Game2048.tsx:91-95 | a fresh board turned `n` quarter turns |
| Game2048Component.Game.constructor | components/Game2048.tsx:12-14 | the initial board, score 0 and the game running |
| Game2048Component.Game.Move | components/Game2048.tsx:83-113 | nothing once the game is over; otherwise the move is played as written, and `onGameOver` is called once, with the new score, exactly when the game ends |
| Game2048Component.ToBoard | components/Game2048.tsx:91 | a fresh board with the state's cells |
| Game2048Component.PlayMove | components/Game2048.tsx:86-112 | when the turned board moves, the board the turn-back loop leaves with a tile spawned on it, the score grown by the merges, and the end-of-game test of that board; otherwise nothing changes |
| Game2048Component.AsWrittenLoop | components/Game2048.tsx:99-101 | the board left by the turn-back loop, which turns the moved board once per pass, is the board `move` keeps as written |
| Game2048.MovedIffChanged | components/Game2048.tsx:49-65 | `moved` is set exactly when some row slid differently from how it was |
| Game2048.TurnBack | components/Game2048.tsx:86-101 | turning the board back by the remaining quarter turns undoes the turn before the slide |
| Game2048.EmptyCells | components/Game2048.tsx:24-31 | every collected cell lies on the board and holds no tile |
| Game2048.CollectRow | components/Game2048.tsx:26-30 | the inner loop collects the empty cells of one row, left to right |
| Game2048.MergeStep | components/Game2048.tsx:48-57 | a pair of equal tiles merges into their double and adds it to the score; any other tile is copied |
| Game2048.SlideRowAt | components/Game2048.tsx:44-68 | one pass of the loop replaces row `i` by its slid row, gains the row's merged tiles and notes a merge or a change |
| Game2048.WriteRow | components/Game2048.tsx:67 | row `i` of the board is replaced and nothing else changes |
| GhostPosts.DatePart | lib/ghost.ts:89 | the date part is the text before the first `T`, or the whole text when it has no `T` |
| GhostPosts.PlainTextIsClean | lib/ghost.ts:84 | the plain text has no whitespace at either end and never two whitespace characters together |
| GhostPosts.CollapsedIsClean | lib/ghost.ts:84 | collapsing whitespace runs to one space and trimming gives a clean text |
| GhostPosts.ConversionDefaults | lib/ghost.ts:81-99 | the slug, tag names and featured flag are kept; the date is the date part of the publication time, or of now when there is none; without metadata a featured post gets order 0 and any other 999; the reading time ends in ` min read`; the content is clean plain text |
| GhostPosts.FeaturedDefaultSortsAsUnset | lib/ghost.ts:96-149 | a featured post without a metadata order gets 0, which the pinned sort reads as 999, the key of an unpinned post |
| GhostPosts.AllPostsFromGhost | lib/ghost.ts:109-119 | one converted post per post of the response, in the API's order |
| GhostPosts.PostBySlugFromGhost | lib/ghost.ts:121-136 | a post exactly when the request succeeds with at least one post, and then it is the first one converted |
| GhostPosts.PinnedFromGhostSorted | lib/ghost.ts:138-150 | the pinned list is sorted by pinned order and holds every returned post exactly once |
| GhostPosts.TagsFromGhost | lib/ghost.ts:152-156 | the tags are sorted, distinct, and exactly the tag names of the returned posts |
| GhostPosts.SearchFromGhost | lib/ghost.ts:158-169 | a post is found exactly when its title, its plain text or one of its tags contains the query, ignoring case |
| GithubStats.FreshEarlier | app/api/github/route.ts:105-106 | a cache entry served at some moment would have been served at every earlier moment after its timestamp |
| GithubStats.StatsCache.constructor | app/api/github/route.ts:64 | the cache starts empty |
| GithubStats.StatsCache.Lookup | app/api/github/route.ts:104-108 | the cached statistics are returned exactly when an entry exists and is less than `CACHE_DURATION` old, and they are the saved data |
| GithubStats.StatsCache.Store | app/api/github/route.ts:605-609 | the entry becomes the statistics just computed, stamped with the time of saving |
| GithubStats.ServedForFiveMinutes | app/api/github/route.ts:65-106 | a saved entry is served exactly until five minutes (300000 ms) after it was saved |
| GithubStats.CommitCount | app/api/github/route.ts:252-263 | a push contributes the length of its commit list when that list is non-empty, and 1 otherwise, so always at least 1 |
| GithubStats.DayTotalPositive | app/api/github/route.ts:259-266 | a day's total is positive exactly when some recent push falls on it |
| GithubStats.CommitsByDay | app/api/github/route.ts:240-266 | the keys are exactly the days of recent pushes, each value is the sum of the commit counts of that day's recent pushes (at least 1), and the key order lists each key once |
| GithubStats.LongestStreak | app/api/github/route.ts:285-302 | the result is the length of the longest run of consecutive day numbers in the sorted keys, 0 exactly for no keys, and never more than the number of keys |
| GithubStats.RunEndsWithin | app/api/github/route.ts:293-299 | when the run ending at `i` was reset at its start, every run ending at `i` starts inside it, so `tempStreak` is the longest run ending there |
| GithubStats.Productivity | app/api/github/route.ts:269-305 | the active days are the distinct days of recent pushes; the longest streak is the longest run of consecutive days among them in ascending order, 0 exactly when there are none, and never more than their number; there are no active days exactly when there is no recent push; the weekly average is `WeeklyAvg` of all recent commits over the active days |
| GithubStats.DayKeys | app/api/github/route.ts:269-305 | sorting the keys of `commitsByDay` yields each active day once in ascending order, and the values of the keys add up to all recent commits |
| GithubStats.TotalCommits | app/api/github/route.ts:305 | the `reduce` adds the value of every key of `commitsByDay` |
| GithubStats.SumOfDayTotals | app/api/github/route.ts:259-266 | the sum of the day totals over distinct days is the number of recent commits on those days |
| GithubStats.CommitsOnActive | app/api/github/route.ts:259-266 | over a list of days that includes every active day, the commits on those days are all the recent commits |
| GithubStats.SortedKeys | app/api/github/route.ts:269 | sorting distinct day keys keeps them distinct, keeps exactly the same days and orders them ascending |
| GithubStats.WeeklyAvg | app/api/github/route.ts:305 | with no active days the average is 0; otherwise it is seven times the commits per active day rounded to the nearest integer, halves up |
| GithubStats.CountLanguages | app/api/github/route.ts:222-227 | the keys are exactly the non-empty languages of the repositories, each counted with its number of repositories, in first-seen order without repetition |
| GithubStats.Entries | app/api/github/route.ts:230 | the entries list each key, in key order, with its count |
| GithubStats.TopLanguages | app/api/github/route.ts:230-232 | at most five entries (all of them when there are fewer), each one of the language entries |
| GithubStats.TopLanguagesRanked | app/api/github/route.ts:230-232 | the kept entries are in descending count order and no entry left out has a larger count than a kept one |
| GithubStats.Dominated | app/api/github/route.ts:231-232 | after the descending sort, an entry cut off by `slice(0, 5)` has no more repositories than each kept one |
| GithubStats.LanguagesCounted | app/api/github/route.ts:222-230 | every non-empty language of some repository appears among the entries with its number of repositories |
| GithubStats.UsesPositive | app/api/github/route.ts:223-226 | a language has a positive count exactly when some repository has it |
| GithubStats.FirstMood | app/api/github/route.ts:328-355 | the mood is `Other` exactly when no mood's keyword occurs in the message; otherwise it is the first mood, in table order, with a keyword in the message |
| GithubStats.ClassifyMessage | app/api/github/route.ts:345-360 | the loop that breaks at the first matching mood yields the first matching mood of `moodKeywords` in table order, or `Other` |
| GithubStats.Bump | app/api/github/route.ts:351-358 | one bucket grows by one and the others are unchanged |
| GithubStats.MoodCounts | app/api/github/route.ts:335-362 | each bucket counts the commits of push events whose first matching mood is that bucket, and the five buckets add up to the number of listed commits |
| GithubStats.CountCommits | app/api/github/route.ts:344-361 | the commits of one push add to each bucket exactly the number of them classified there |
| GithubStats.ClassifiedTotal | app/api/github/route.ts:349-360 | every commit lands in exactly one bucket |
| GithubStats.MoodTotal | app/api/github/route.ts:343-362 | the bucket totals equal the number of commits the push events list |
| GithubStats.Traits | app/api/github/route.ts:402-446 | the traits are exactly three: one of Night Owl, Early Bird, Day Worker; then one of Weekend Warrior, Weekday Grinder; then one of Team Player, Solo Builder |
| GithubStats.Personality | app/api/github/route.ts:402-446 | the pushes made by the three if/else groups give the three traits above |
| GithubStats.HourActivitySplit | app/api/github/route.ts:390-406 | the activity of a set of hours is the sum of the per-hour counts of its disjoint parts, so `nightActivity` and the others add up `hourCounts` |
| GithubStats.DaysPartition | app/api/github/route.ts:416-425 | weekend and weekday activity together count every recent event exactly once |
| GithubStats.WeekendStays | app/api/github/route.ts:422-431 | one more recent weekend event never turns a Weekend Warrior into a Weekday Grinder |
| Json.HexDigitValue | app/api/chat/route.ts:158 | a hexadecimal digit written is read back as its value |
| Json.EscapeChar | app/api/chat/route.ts:158-175 | an escaped character is never empty and holds no line break or carriage return |
| Json.Escape | app/api/chat/route.ts:158-175 | an escaped text holds no line break or carriage return |
| Json.Quote | app/api/chat/route.ts:175-196 | a string literal never holds a raw line break, so it fits on one line |
| Json.UnquoteEscapeChar | components/ChatWidget.tsx:413 | parsing one escaped character consumes exactly its escape |
| Json.UnquoteEscape | components/ChatWidget.tsx:413 | parsing what the escaping wrote gives back the string and leaves the rest of the text |
| Json.QuoteRoundTrip | app/api/chat/route.ts:175 | a literal starts with a quote and parses back to exactly its string |
| Json.QuoteInjective | app/api/chat/route.ts:175 | two strings with the same literal are equal |
| KnowledgeSearch.PyIndex | livekit-agent/agent.py:131-134 | indexing succeeds exactly for indices from `-len` to `len - 1`, and gives one of the documents |
| KnowledgeSearch.PickAll | livekit-agent/agent.py:131-134 | picking succeeds exactly when every index is valid, giving the indexed documents in the reranker's order |
| KnowledgeSearch.Blocks | livekit-agent/agent.py:142-145 | one block per document, numbered consecutively in list order |
| KnowledgeSearch.SearchKnowledge | livekit-agent/agent.py:90-151 | the search runs only after the query is embedded, with the fixed threshold and count; a failure of the embedding or the search is reported as text, not raised |
| KnowledgeSearch.NothingFound | livekit-agent/agent.py:116-119 | with nothing found the tool says so and neither reranks nor formats |
| KnowledgeSearch.FoundDocuments | livekit-agent/agent.py:121-147 | the reranker is asked exactly when it is configured and there are at least two documents, with the query, each chunk’s `content` (empty when missing) and `top_n = min(5, len)`; the output is the numbered context of the selected chunks |
| KnowledgeSearch.RerankFallback | livekit-agent/agent.py:126-139 | a reranker that raises, or that names a position outside the list, leaves the first five chunks in search order |
| KnowledgeSearch.RerankedOrder | livekit-agent/agent.py:126-135 | a reranking that names only positions of the list selects those chunks in its order, negative positions counting from the end |
| KnowledgeSearch.SelectedFromFound | livekit-agent/agent.py:131-139 | every chosen chunk is one the search returned |
| KnowledgeSearch.WithoutRerankFirstFive | livekit-agent/agent.py:137-139 | without a reranker, or with one document, the first five chunks in search order are chosen |
| KnowledgeSearch.AtMostFiveSources | livekit-agent/agent.py:127-139 | a reranker that honours `top_n` never lets more than five chunks through |
| MainFeed.PhotoTime | components/NewMainPage.tsx:56-59 | a photo without a (non-empty) metadata date is dated at the epoch; otherwise its date is the parse of a dot-free text of the same length, the metadata date with its dots read as dashes |
| MainFeed.PostItems | components/NewMainPage.tsx:44-51 | the first loop pushes exactly one item per post |
| MainFeed.PhotoItems | components/NewMainPage.tsx:53-65 | the second loop pushes at most one item per photo |
| MainFeed.BuildFeed | components/NewMainPage.tsx:41-70 | the feed is ordered newest first and is a permutation of the items pushed for the posts and the photos |
| MainFeed.PostItemsCount | components/NewMainPage.tsx:44-51 | each post is pushed exactly as often as it is given |
| MainFeed.PostItemsArePosts | components/NewMainPage.tsx:46-50 | the first loop pushes only post items |
| MainFeed.PhotoItemsArePhotos | components/NewMainPage.tsx:60-64 | the second loop pushes only photo items |
| MainFeed.PhotoItemsCount | components/NewMainPage.tsx:53-65 | each photo that is not an SVG file is pushed exactly as often as it is given, and an SVG file never |
| MainFeed.AbsentKind | components/NewMainPage.tsx:37-39 | a list of items of one kind holds no item of the other kind |
| MainFeed.EveryPostOnce | components/NewMainPage.tsx:41-70 | every post is in the feed exactly as often as it is given, dated as the feed reads its date |
| MainFeed.EveryPhotoOnce | components/NewMainPage.tsx:41-70 | every photo that is not an SVG file is in the feed exactly as often as it is given, and SVG files never are |
| MainFeed.FeedLength | components/NewMainPage.tsx:41-70 | the feed has one item per post plus one per photo that is not an SVG file |
| MainFeed.PhotoItemsLength | components/NewMainPage.tsx:53-65 | the photo items are as many as the photos that are not SVG files |
| Markdown.PlainTextIsPlain | lib/markdown.ts:28 | the plain text holds no markdown mark and no line break |
| Markdown.ReadingTime | lib/markdown.ts:27-32 | the label ends in `분 읽기` |
| Markdown.ReadingTimeMinutes | lib/markdown.ts:27-32 | the label's number is the plain text's length in UTF-16 units divided by 400, rounded up, and never less than one |
| Markdown.AliasedLink | lib/markdown.ts:37-42 | a wiki link with a bar-separated alias becomes one link `[alias](/posts/slug)` with the slug of the link |
| Markdown.PlainWikiLink | lib/markdown.ts:37-42 | `[[link]]` becomes one link `[link](/posts/slug)` |
| Markdown.EmbedBecomesLink | lib/markdown.ts:35-50 | an embed `![[x]]` is rewritten by the wiki-link rule first, so it becomes `![x](/posts/slug)` and never an attachment image |
| Markdown.Highlighted | lib/markdown.ts:47 | `==x==` on one line becomes `<mark>x</mark>` |
| Markdown.PinnedOrderOf | lib/markdown.ts:98-151 | the pinned order is never 0, since 0 falls back to 999 |
| Markdown.PostDefaults | lib/markdown.ts:90-151 | a missing title is the slug with dashes read as spaces, missing tags are empty, a missing or zero order is 999, and a missing date is today |
| Markdown.PreviewOfPost | lib/markdown.ts:82-136 | the preview is the whole plain text up to 150 UTF-16 units, and otherwise a prefix of it followed by `...` |
| Markdown.PostBySlug | lib/markdown.ts:113-160 | the post built from the file named `slug.md`, carrying that slug; none exactly when there is no such file |
| Markdown.AllPostsSorted | lib/markdown.ts:53-111 | the posts are sorted newest first and hold one post per `.md` file |
| Markdown.PinnedPostsSpec | lib/markdown.ts:163-169 | at most five posts, all pinned and from the list, sorted by pinned order; every pinned post when there are at most five |
| Markdown.PinnedPostsEarliest | lib/markdown.ts:163-169 | with more than five pinned posts, five are kept, taken from the pinned posts, and no pinned post left out has an earlier pinned order than a post kept |
| Metrics.SetPath | lib/metrics.ts:89-102 | when the write succeeds, the value is found at the key path and every prefix of the path holds an object; it fails exactly when a prefix holds a truthy value that is not an object |
| Metrics.AssignPath | lib/metrics.ts:89-102 | the loop that walks down the path, creating missing objects, and assigns the value, agrees with the path write |
| Metrics.EmptyHasNothing | lib/metrics.ts:96 | an empty object holds nothing at any path |
| Metrics.FalsyHasNothing | lib/metrics.ts:95-96 | a falsy value holds nothing at any path, so it is replaced by an empty object |
| Metrics.KeyPath | lib/metrics.ts:90 | the key split at dots has at least one part and joins back to the key |
| Metrics.SetPathKeepsSiblings | lib/metrics.ts:89-102 | a write leaves every path that leaves the key path before its end unchanged |
| Metrics.Duration | lib/metrics.ts:74-83 | 0 when either checkpoint is missing or zero; otherwise the end time minus the start time |
| Metrics.LatestCheckpointsCount | lib/metrics.ts:67-83 | a checkpoint reached again counts with its latest time |
| Metrics.Performance | lib/metrics.ts:121-129 | each stage's duration between its start and end checkpoints, and the total time since the collector was created |
| Metrics.Zeros | lib/metrics.ts:47-60 | every named counter starts at 0 |
| Metrics.InitiallyZero | lib/metrics.ts:39-62 | a new record holds 0 for every normalisation counter and every cost field |
| Metrics.VoiceMetricsCollector.constructor | lib/metrics.ts:39-62 | the start time is now, there are no checkpoints and the record is the initial one |
| Metrics.VoiceMetricsCollector.Checkpoint | lib/metrics.ts:67-69 | the stage's time becomes now; nothing else changes |
| Metrics.VoiceMetricsCollector.SetMetric | lib/metrics.ts:89-102 | the record becomes the path write when it succeeds and stays unchanged when it throws; the checkpoints never change |
| Metrics.VoiceMetricsCollector.RecordError | lib/metrics.ts:107-114 | the error entry is replaced by one that has `hasError` set; nothing else changes |
| Metrics.VoiceMetricsCollector.Finalize | lib/metrics.ts:119-129 | the performance entry is replaced by the stage durations and the total, and the record is returned |
| Metrics.CountSentences | lib/metrics.ts:254-258 | never more sentences than pieces |
| Metrics.SentencesWithoutEnds | lib/metrics.ts:254-258 | a text without sentence ends is one sentence, or none when it is blank |
| Metrics.SentencesBetweenEnds | lib/metrics.ts:254-258 | no sentence holds a sentence end, and there is at most one more sentence than runs of sentence ends |
| Metrics.AvgSimilarity | lib/metrics.ts:263-268 | no documents give 0 |
| Metrics.AvgWithinBounds | lib/metrics.ts:263-268 | the average of similarities within bounds lies within the same bounds |
| MetricsRoute.ParseIntOfNumber | app/api/metrics/route.ts:35 | a decimal number, with or without a minus sign and followed by anything that is not a digit, is read back as itself |
| MetricsRoute.ParseIntRejects | app/api/metrics/route.ts:35 | a text that, after leading whitespace, starts with neither a digit nor a sign reads as `NaN` |
| MetricsRoute.QueryDefaults | app/api/metrics/route.ts:33-35 | a missing or empty range is `24h`, a missing or empty grouping is `hour`, and a missing or empty limit is 100 |
| MetricsRoute.TimeRangeStart | app/api/metrics/route.ts:92-109 | no start exactly for `all`; any start lies before now |
| MetricsRoute.RangeStarts | app/api/metrics/route.ts:92-109 | one hour, one day, seven days and thirty days before now; any other range counts as one day |
| MetricsRoute.RangesNested | app/api/metrics/route.ts:96-103 | a longer range starts earlier |
| MetricsRoute.HourKeyInjective | app/api/metrics/route.ts:228-236 | two timestamps share an hour key exactly when they agree on year, month, day and hour |
| MetricsRoute.DayKeySameDate | app/api/metrics/route.ts:228-238 | two timestamps share a day key exactly when they fall on the same date |
| MetricsRoute.KeyShapes | app/api/metrics/route.ts:228-238 | an hour key ends in `:00:00Z`, and the day key is the hour key at midnight, ending in `T00:00:00Z` |
| MetricsRoute.AvgBounds | app/api/metrics/route.ts:251-255 | the average of values within bounds lies within the same bounds |
| MetricsRoute.RankBounds | app/api/metrics/route.ts:267-271 | the rank lies among the values exactly when `p` is at most 1, and is the first for `p` at most 0 |
| MetricsRoute.Percentile | app/api/metrics/route.ts:267-271 | 0 for no values; one of the values for `p` at most 1; out of range beyond; the smallest for `p` at most 0 |
| MetricsRoute.NearestRank | app/api/metrics/route.ts:267-271 | on sorted values, the percentile is at least every value below the `n * p` rank and at most every value from it on |
| MetricsRoute.PercentileMonotone | app/api/metrics/route.ts:267-271 | a higher `p` never gives a lower percentile |
| MetricsRoute.ErrorCount | app/api/metrics/route.ts:154 | never more errors than records |
| MetricsRoute.BucketFor | app/api/metrics/route.ts:216-221 | a bucket carries its key and its number of records, with no more errors than records |
| MetricsRoute.WithKey | app/api/metrics/route.ts:205-213 | the records of a group are exactly the records with that key |
| MetricsRoute.GroupsOfShape | app/api/metrics/route.ts:203-213 | the groups are listed in first-seen order without repetition, there is one per key of the records, and each holds exactly the records with its key |
| MetricsRoute.GroupsOfCount | app/api/metrics/route.ts:203-221 | the bucket counts add up to the number of records |
| MetricsRoute.GroupByTime | app/api/metrics/route.ts:199-223 | the map filled record by record gives the buckets of the grouping specification, sorted by timestamp |
| MetricsRoute.ByTimeSpec | app/api/metrics/route.ts:199-223 | the buckets are sorted by timestamp, there is one per key with its exact count, and the counts add up to the number of records |
| MetricsRoute.CalculateStats | app/api/metrics/route.ts:114-171 | the total is the number of records, and no records give the empty statistics |
| MetricsRoute.MedianBelowP95 | app/api/metrics/route.ts:132-138 | the median and the 95th percentile of the durations are durations of the records, the median being no larger |
| MetricsRoute.StatsSpec | app/api/metrics/route.ts:114-171 | for records, the median and the 95th percentile are total durations in order, the error rate lies between 0 and 1, and the buckets are the time grouping |
| MetricsRoute.Get | app/api/metrics/route.ts:28-87 | a 500 error exactly when the database query fails, with its message as details; otherwise the records with their statistics, range and grouping, and a count exactly when there are records |
| MetricsRoute.RankMonotone | app/api/metrics/route.ts:267-271 | a higher fraction never selects an earlier position |
| PostCarousel.CeilDiv | components/PostCarousel2D.tsx:43-45 | the quotient rounded up: the least `q` with `q * b >= a` |
| PostCarousel.SlotCount | components/PostCarousel2D.tsx:42-46 | there is a slot count exactly when there are posts (no posts give `NaN`), and six or more posts get one slot each |
| PostCarousel.FewPostsRepeat | components/PostCarousel2D.tsx:44-45 | for one to five posts the slot count is a multiple of the number of posts, at least six and less than six beyond the number of posts |
| PostCarousel.ModOfSmaller | components/PostCarousel2D.tsx:200 | a slot below the number of posts shows the post of the same index |
| PostCarousel.Slots | components/PostCarousel2D.tsx:51-200 | the rendered slots are as many as the slot count and each shows a valid post index |
| PostCarousel.EveryPostShown | components/PostCarousel2D.tsx:199-218 | every post is shown by some slot |
| Posts.Preview | lib/markdown.ts:83 | a text of at most 150 code units is its own preview; a longer one is cut to a prefix of at most 150 code units followed by `...` |
| Posts.PreviewKeepsWholePrefix | lib/markdown.ts:83 | a cut preview is 152 or 153 code units long |
| Posts.PinnedKey | lib/markdown.ts:167 | the pinned order sorts as itself, and an order of 0 sorts as 999 |
| Posts.ByPinnedOrderIsPreorder | lib/markdown.ts:167 | comparing by pinned order is a total preorder, so the stable sort orders the posts by it |
| Posts.AllTagsOf | lib/markdown.ts:174 | the collected tags are exactly the tags of some post |
| Posts.StringLeIsPreorder | lib/markdown.ts:176 | the code-unit order of `sort()` is a total preorder |
| Posts.TagListSpec | lib/markdown.ts:172-177 | the tag list is sorted, holds no tag twice, and holds exactly the tags of the posts |
| Posts.DistinctPermutation | lib/markdown.ts:175-176 | sorting a list without repetitions leaves it without repetitions |
| Posts.PostsByTag | lib/markdown.ts:180-185 | a post is selected exactly when one of its tags equals the asked tag in lower case |
| Posts.Search | lib/markdown.ts:188-197 | a post is selected exactly when the lowercased query occurs in its lowercased title, content or one of its tags |
| Posts.CaseInsensitive | lib/markdown.ts:180-197 | asking for a tag or a query in lower case gives the same posts |
| Posts.EmptyQueryFindsAll | lib/markdown.ts:188-197 | the empty query selects every post |
| PromptHistory.NewestFirstIsPreorder | lib/prompts/prompt-history.ts:24 | the newest-first comparison is a total preorder, so the sort orders the entries by it |
| PromptHistory.HistoryOf | lib/prompts/prompt-history.ts:15-29 | no history on the server, for an empty slot or for one that does not parse; otherwise the stored entries, newest first, each as often as stored |
| PromptHistory.FilterSorted | lib/prompts/prompt-history.ts:33 | filtering a sorted history keeps it sorted |
| PromptHistory.InCategory | lib/prompts/prompt-history.ts:32-34 | the entries kept are exactly those of the category |
| PromptHistory.CategoryHistorySorted | lib/prompts/prompt-history.ts:32-34 | a category's history is newest first and holds exactly the stored entries of that category |
| PromptHistory.NewId | lib/prompts/prompt-history.ts:43 | an id starts with the time of saving and a dash |
| PromptHistory.Saved | lib/prompts/prompt-history.ts:50-56 | the new entry comes first, followed by the older entries, at most fifty in all |
| PromptHistory.Without | lib/prompts/prompt-history.ts:64-71 | the entries kept are exactly those with another id |
| PromptHistory.OutsideCategory | lib/prompts/prompt-history.ts:93-100 | the entries kept are exactly those of other categories |
| PromptHistory.Renamed | lib/prompts/prompt-history.ts:74-83 | the entries keep their order and number, those with the id take the new name, and the others are unchanged |
| PromptHistory.PromptStore.constructor | lib/prompts/prompt-history.ts:11-12 | the store starts with the given environment and storage slot |
| PromptHistory.PromptStore.SaveToHistory | lib/prompts/prompt-history.ts:37-61 | on the server it fails and stores nothing; otherwise it returns the new entry and stores it in front of the history |
| PromptHistory.PromptStore.DeleteHistoryEntry | lib/prompts/prompt-history.ts:64-71 | outside the server, the history without the id is stored; on the server nothing changes |
| PromptHistory.PromptStore.UpdateHistoryEntryName | lib/prompts/prompt-history.ts:74-83 | outside the server, the renamed history is stored; on the server nothing changes |
| PromptHistory.PromptStore.ClearHistory | lib/prompts/prompt-history.ts:86-90 | outside the server, the slot is removed; the history is then empty |
| PromptHistory.PromptStore.ClearCategoryHistory | lib/prompts/prompt-history.ts:93-100 | outside the server, the history without the category is stored; the category's history is then empty |
| PromptHistory.SavedIsListed | lib/prompts/prompt-history.ts:37-61 | a saved entry is listed afterwards, and the history never exceeds fifty entries |
| PromptHistory.DeletedIsGone | lib/prompts/prompt-history.ts:64-71 | after a delete, no listed entry has the deleted id |
| PromptHistory.CategoryCleared | lib/prompts/prompt-history.ts:93-100 | after clearing a category, none of its entries is listed |
| PromptHistory.TimestampBuckets | lib/prompts/prompt-history.ts:103-123 | under a minute is "just now"; then the whole number of minutes, hours or days elapsed, each below its next unit; from a week on, the date |
| RssSources.EnabledSources | lib/config/rss-sources.ts:112-114 | the result holds exactly the configured feeds that are enabled |
| RssSources.SourcesByCategory | lib/config/rss-sources.ts:119-125 | the result holds exactly the configured feeds that are enabled and of the category |
| RssSources.FilterIsSubsequence | lib/config/rss-sources.ts:113-124 | a filter keeps elements in their original order |
| RssSources.SubsequenceSkip | lib/config/rss-sources.ts:113 | a filter may skip a first element and stay in order |
| RssSources.SubsequenceTail | lib/config/rss-sources.ts:113 | what remains after a kept first element is still in order |
| RssSources.FilterTwice | lib/config/rss-sources.ts:122-124 | filtering by a conjunction is filtering by each part in turn |
| RssSources.CategoryOfEnabled | lib/config/rss-sources.ts:112-125 | the feeds of a category are the enabled feeds filtered by category |
| RssSources.SelectionsKeepOrder | lib/config/rss-sources.ts:112-125 | both selections keep the configured order, and the category selection is in order within the enabled feeds |
| RssSources.ConfiguredUsable | lib/config/rss-sources.ts:13-107 | every configured feed is enabled and has a positive article limit |
| RssSources.ConfiguredAllEnabled | lib/config/rss-sources.ts:13-114 | every configured feed is enabled, so the enabled feeds are the whole list |
| SiteUtils.ReadingMinutes | lib/utils.ts:39-40 | at least one minute, and exactly the number of started 400-character blocks |
| SiteUtils.ReadingMinutesMonotone | lib/utils.ts:39-40 | a longer text never reads faster |
| SiteUtils.ReadingTime | lib/utils.ts:34-42 | the minutes of the text stripped of tags and markdown marks with its whitespace collapsed, followed by ` min read` |
| SiteUtils.ReadingTimeAtLeastOne | lib/utils.ts:40-41 | the number in the label reads back as at least 1 |
| SiteUtils.SrcValueLen | lib/utils.ts:23 | a non-empty quoted value ends before the end of the text |
| SiteUtils.LastIn | lib/utils.ts:23 | the position found for the greedy `[^>]+` lies in range and is followed by a `src` attribute |
| SiteUtils.LastInIsLast | lib/utils.ts:23 | the position found is the last such one, and nothing is found only when there is none |
| SiteUtils.ImgSrcAt | lib/utils.ts:23 | a match's `src` attribute lies at least five characters after the tag start and has a value |
| SiteUtils.SrcOf | lib/utils.ts:23-27 | a captured value is non-empty and holds no quote |
| SiteUtils.ExtractImagesFromHtml | lib/utils.ts:22-30 | the `exec` loop collects the captures of the pattern's matches, left to right |
| SiteUtils.ExecLoop | lib/utils.ts:24-29 | the loop's list is the captures of the successive non-overlapping matches |
| SiteUtils.CapturesAreMatches | lib/utils.ts:26-28 | one capture per match, each taken at its match |
| SiteUtils.ImagesWellFormed | lib/utils.ts:22-30 | every address found is non-empty and holds no quote |
| SiteUtils.NoImgNoImages | lib/utils.ts:22-30 | a text without `<img` has no images |
| SiteUtils.ImgRoundTrip | lib/utils.ts:22-30 | a lone `<img src="v">` yields exactly `v` |
| SiteUtils.LoneImgMatch | lib/utils.ts:23 | the match at the start of a lone tag has its attribute at 5 and `v` as its value |
| SiteUtils.FormatDate | lib/utils.ts:9-19 | the empty date gives the empty label, and so does a date that is neither three dash-separated parts nor parseable |
| Snake.Advance | components/SnakeGame.tsx:81-94 | up and down change `y` by one, left and right change `x` by one |
| Snake.KeyDirection | components/SnakeGame.tsx:46-67 | the arrow keys and `w`/`a`/`s`/`d` in either case name exactly their directions, and no other key names one |
| Snake.Coordinate | components/SnakeGame.tsx:115-116 | a random draw gives a coordinate on the grid |
| Snake.SnakeGame.constructor | components/SnakeGame.tsx:15-22 | the snake is one segment at (10, 10), the food at (15, 15), heading right, with no score and nothing reported |
| Snake.SnakeGame.KeyPress | components/SnakeGame.tsx:41-72 | while the game runs the direction turns by the key; once it is over nothing changes |
| Snake.SnakeGame.MoveSnake | components/SnakeGame.tsx:74-128 | a tick of a running game crashes, or moves the snake and places new food and scores when it eats; a finished game stays as it is |
| Snake.SnakeGame.ReportGameOver | components/SnakeGame.tsx:33-38 | the score is reported when the game is over and nothing was reported before |
| Snake.NextBody | components/SnakeGame.tsx:77-124 | the new body is computed as the tick specification says |
| Snake.Occupied | components/SnakeGame.tsx:103 | a cell is hit exactly when it is one of the segments |
| Snake.CrashIff | components/SnakeGame.tsx:96-106 | a crash happens exactly when the new head leaves the grid or lands on a segment, the tail included |
| Snake.MoveShape | components/SnakeGame.tsx:108-121 | the head moves one step; the body grows by one exactly when the food is eaten and otherwise loses its tail |
| Snake.TickKeepsWellFormed | components/SnakeGame.tsx:96-123 | a move keeps the snake on the grid and without overlapping segments |
| Snake.TurnNeverReverses | components/SnakeGame.tsx:50-65 | a key never sets the reverse of the current direction, and either leaves it or sets the key's direction |
| Snake.TwoKeysReverse | components/SnakeGame.tsx:41-72 | two keys between ticks (up, then left) turn a snake heading right to head left |
| Snake.ReportedAtMostOnce | components/SnakeGame.tsx:33-38 | the score is reported at most once, only after the game is over, and it is the final score |
| SummaryGenerator.TemplateSetFor | lib/utils/summary-generator.ts:45-54 | the technology templates are chosen exactly for a non-empty category equal to `technology` in any letter case, the business ones exactly for `business`, the general ones otherwise |
| SummaryGenerator.IgnoresCase | lib/utils/summary-generator.ts:45 | two non-empty categories that differ only in letter case choose the same template set |
| SummaryGenerator.NotTrimmed | lib/utils/summary-generator.ts:45-54 | a category with a leading blank is not trimmed and falls to the general templates |
| SummaryGenerator.AliasIsNotATemplateSet | lib/utils/summary-generator.ts:45-54 | the alias `tech`, which the category prompts read as technology, gets the general templates here |
| SummaryGenerator.FirstQuoted | lib/utils/summary-generator.ts:205 | the position found is the first at which a quote, a non-empty run of non-quotes and a quote begin; `None` exactly when there is no such position |
| SummaryGenerator.KeyInfoQuoted | lib/utils/summary-generator.ts:205-206 | with a quoted part, the key information is the first quoted text: non-empty, free of quotes, enclosed by quotes in the title, with no earlier quoted part |
| SummaryGenerator.KeyInfoAfterLastDash | lib/utils/summary-generator.ts:208-209 | without a quoted part and with a colon or dash in the title, the key information is the trimmed text after the last colon or dash |
| SummaryGenerator.PiecesAfterLastDash | lib/utils/summary-generator.ts:208 | splitting at colons and dashes gives more than one piece, the last being the text after the last separator |
| SummaryGenerator.KeyInfoFirstWords | lib/utils/summary-generator.ts:211-217 | without quotes or separators, a title of at most 30 UTF-16 units is kept whole and a longer one gives a prefix made of its first five blank-separated words |
| SummaryGenerator.KeyInfoIsPart | lib/utils/summary-generator.ts:203-218 | the key information always occurs in the title |
| SummaryGenerator.EffectiveScore | lib/utils/summary-generator.ts:221 | a missing or zero relevance score counts as 0.5, any other score as itself |
| SummaryGenerator.IndexInRange | lib/utils/summary-generator.ts:225-232 | among three templates, a neutral or positive article finds one exactly when its score lies in [0, 1.5), a negative one exactly when its score is at least -0.5 |
| SummaryGenerator.UnitScoreInRange | lib/utils/summary-generator.ts:221-232 | every score from 0 to 1, or a missing score, selects one of the three templates |
| SummaryGenerator.IndexMonotone | lib/utils/summary-generator.ts:225-230 | a higher score never selects an earlier template |
| SummaryGenerator.NegativeMovesOn | lib/utils/summary-generator.ts:228-230 | a negative article takes the next template, capped at the last, and never an earlier one |
| SummaryGenerator.DefaultScoreIndices | lib/utils/summary-generator.ts:221-230 | without a score an article takes the middle template, or the last when it is negative |
| SummaryGenerator.SentimentRanks | lib/utils/summary-generator.ts:235-238 | negative ranks below neutral and neutral below positive; every other sentiment counts as neutral; the percentage lies between 35 and 85 |
| SummaryGenerator.InputsFor | lib/utils/summary-generator.ts:57-153 | the title is the key information, the keywords are the first (at most three) given ones, and the company is the source or the set's fallback wording |
| SummaryGenerator.StructuredSummary.constructor | lib/utils/summary-generator.ts:62-97 | a template literal holds its hook, bullets and impact and is not yet rendered |
| SummaryGenerator.StructuredSummary.Render | lib/utils/summary-generator.ts:99-200 | the rendered text is the pinned hook, a blank line, the bullets one per line, a blank line and the impact; nothing else changes |
| SummaryGenerator.GenerateStructured | lib/utils/summary-generator.ts:44-233 | a summary is produced exactly when the selected index lies among the templates; it is that template, rendered; otherwise the call fails |
| SummaryGenerator.GenerateSmart | lib/utils/summary-generator.ts:39-42 | the rendered text of the selected template, failing exactly when the structured summary fails |
| SummaryGenerator.ValidateSummary | lib/utils/summary-generator.ts:268-281 | a hook implies a pin and more than 20 units in the text; implications exactly when an arrow occurs; facts exactly when a digit and a bullet sign occur |
| SummaryGenerator.FirstLineIsPrefix | lib/utils/summary-generator.ts:269-270 | the first line is a prefix of the text without a line break |
| SummaryGenerator.FormatLines | lib/utils/summary-generator.ts:197-269 | when no part holds a line break, splitting the rendered text at line breaks gives back the pinned hook, a blank, the bullets, a blank and the impact |
| SummaryGenerator.HookOfRendered | lib/utils/summary-generator.ts:199-275 | a rendered template passes the hook principle exactly when its hook is longer than 17 UTF-16 units |
| SummaryGenerator.BulletInRendered | lib/utils/summary-generator.ts:198-199 | every character of every bullet is in the rendered text |
| SummaryGenerator.PrinciplesOfRendered | lib/utils/summary-generator.ts:197-278 | an impact with an arrow gives implications, and a bullet with a bullet sign and a digit gives facts |
| TextNormalization.ApplyPrefix | lib/text-normalization.ts:112-180 | each further pattern replaces all its matches in the text so far and adds their number |
| TextNormalization.ApplyShrinks | lib/text-normalization.ts:101-183 | when each rule shortens its matches by `d`, the pass shortens the text by `d` per counted match |
| TextNormalization.ApplyKeepsText | lib/text-normalization.ts:188-275 | a pass of rules that change whitespace only keeps the text apart from its whitespace |
| TextNormalization.CountedReplace | lib/text-normalization.ts:113-117 | `replace` replaces as many matches as `match` finds, and changes nothing when there is none |
| TextNormalization.CountAndReplace | lib/text-normalization.ts:110-120 | the loop counts and replaces every match of each pattern in turn |
| TextNormalization.RemoveCitations | lib/text-normalization.ts:101-121 | every citation removed is counted, and each took at least three characters with it |
| TextNormalization.ReplaceEach | lib/text-normalization.ts:177-180 | the loop replaces every match of each pattern in turn and counts each replacement |
| TextNormalization.RemoveMarkdown | lib/text-normalization.ts:127-183 | every markup match removed is counted and shortened the text by at least two characters |
| TextNormalization.FixPunctuation | lib/text-normalization.ts:188-204 | the text apart from its whitespace is unchanged |
| TextNormalization.NormalizeKorean | lib/text-normalization.ts:258-275 | the text apart from its whitespace is unchanged |
| TextNormalization.SplitLongSentences | lib/text-normalization.ts:280-284 | the text comes back unchanged with no sentence split |
| TextNormalization.FillersBounded | lib/text-normalization.ts:213-253 | at most two fillers, at most one per rule, and none when no draw succeeds |
| TextNormalization.FillersNeedMatch | lib/text-normalization.ts:245-249 | a rule whose pattern does not occur adds nothing, whatever the draws |
| TextNormalization.FillerPass | lib/text-normalization.ts:242-250 | the loop adds the fillers of the filler specification, at most two |
| TextNormalization.AddStrategicFillers | lib/text-normalization.ts:213-253 | the fillers of the three rules, at most two |
| TextNormalization.ConsSingle | lib/text-normalization.ts:293 | a character put before single-spaced text keeps it single-spaced unless both are whitespace |
| TextNormalization.SpaceRunAt | lib/text-normalization.ts:293 | `\s{2,}` matches exactly at a whitespace run of two or more and takes all of it |
| TextNormalization.CollapseSingle | lib/text-normalization.ts:293 | after collapsing, no two whitespace characters are adjacent |
| TextNormalization.DeleteSpacesSingle | lib/text-normalization.ts:296-299 | deleting whitespace-only matches keeps a text single-spaced |
| TextNormalization.DropLineStartsSingle | lib/text-normalization.ts:296 | removing line-start whitespace keeps a text single-spaced |
| TextNormalization.DropLineEndsSingle | lib/text-normalization.ts:299 | removing line-end whitespace keeps a text single-spaced |
| TextNormalization.CleanupIsClean | lib/text-normalization.ts:289-305 | the cleaned text has no whitespace at either end and never two whitespace characters together |
| TextNormalization.TrimmedIsClean | lib/text-normalization.ts:302 | trimming a single-spaced text leaves it clean |
| TextNormalization.CleanupKeepsText | lib/text-normalization.ts:289-305 | the cleanup changes whitespace only |
| TextNormalization.TrimKeepsText | lib/text-normalization.ts:302 | trimming changes whitespace only |
| TextNormalization.CleanHasNoMatches | lib/text-normalization.ts:293-299 | no cleanup pattern matches in a clean text |
| TextNormalization.CleanIsFixed | lib/text-normalization.ts:289-305 | a clean text is left as it is |
| TextNormalization.CleanupIdempotent | lib/text-normalization.ts:289-305 | cleaning twice is cleaning once |
| TextNormalization.NormalizeForTTS | lib/text-normalization.ts:43-96 | the steps run in order under their options (an omitted option is on); the result keeps the original, its text is clean, at most two fillers are added, no sentence is split, and a step switched off counts nothing |
| TextNormalization.OnlyRemovalsChangeText | lib/text-normalization.ts:43-96 | without fillers, the spoken text differs from the text stripped of citations and markdown in whitespace only |
| TextNormalization.AllOffOnlyCleans | lib/text-normalization.ts:43-96 | with every step switched off, only the whitespace cleanup runs |
| TtsPatterns.CitationsShrink | lib/text-normalization.ts:104-108 | each citation pattern matches at least three characters and deletes them |
| TtsPatterns.CodeBlockShrinks | lib/text-normalization.ts:133-136 | a fenced code block loses its fences, at least two characters per block |
| TtsPatterns.InlineShrinks | lib/text-normalization.ts:139-174 | inline code, bold, italic and heading matches each lose at least two characters of markup |
| TtsPatterns.LinkShrinks | lib/text-normalization.ts:165-168 | a link keeps only its text, losing at least two characters |
| TtsPatterns.MarkdownShrinks | lib/text-normalization.ts:131-175 | every markdown pattern shortens each match by at least two characters |
| TtsPatterns.ReplaceCountsFirst | lib/text-normalization.ts:177-180 | a pattern that matches at the start is counted at least once |
| TtsPatterns.MarkThenSpaceKeepsText | lib/text-normalization.ts:192-201 | the space-after-punctuation rules change whitespace only |
| TtsPatterns.SpaceThenMarkKeepsText | lib/text-normalization.ts:198 | the rule dropping space before punctuation changes whitespace only |
| TtsPatterns.PunctuationKeepsText | lib/text-normalization.ts:188-204 | every punctuation rule changes whitespace only |
| TtsPatterns.ParticleText | lib/text-normalization.ts:264 | a particle match is whitespace followed by the particle |
| TtsPatterns.ParticleKeepsText | lib/text-normalization.ts:262-266 | removing the space before a particle changes whitespace only |
| TtsPatterns.NumberCounterKeepsText | lib/text-normalization.ts:269 | spacing a number from its counter changes whitespace only |
| TtsPatterns.RequoteIsIdentity | lib/text-normalization.ts:272 | both characters of the quotation class are the ASCII quote, so the rule writes back exactly what it matched |
| TtsPatterns.KoreanKeepsText | lib/text-normalization.ts:258-275 | every Korean rule changes whitespace only |
| TtsPatterns.DemonstrativeReplaced | lib/text-normalization.ts:222-247 | the demonstrative filler replaces the opening demonstrative and its space by `음, `, so the word is lost |
| TtsPatterns.LineEndLen | lib/text-normalization.ts:299 | the whitespace taken by `\s+$` reaches the end of a line and is the longest such run |
| VoiceChat.JsPrefixPastLimit | app/api/voice/chat/route.ts:58-61 | once the text reaches the limit, appending more does not change its cut |
| VoiceChat.EarlyStopSafe | app/api/voice/chat/route.ts:58-61 | stopping once the joined key lines pass 2000 code units gives the same digest as reading every line |
| VoiceChat.KeyLinesStep | app/api/voice/chat/route.ts:43-59 | each line toggles the frontmatter state at a fence, is skipped inside the frontmatter, and is kept outside it when it is a key line |
| VoiceChat.ExtractKeyOpinions | app/api/voice/chat/route.ts:38-62 | the loop gives the key lines outside the frontmatter, joined by newlines and cut to at most 2000 code units |
| VoiceChat.OnlyKeyLinesKept | app/api/voice/chat/route.ts:44-56 | only key lines of the input reach the digest, and never a `---` fence |
| VoiceChat.FrontmatterSkipped | app/api/voice/chat/route.ts:44-48 | the lines between an opening and a closing fence are skipped whatever they look like |
| VoiceChat.SkipInside | app/api/voice/chat/route.ts:48 | inside the frontmatter, lines without a fence are skipped |
| VoiceChat.JsPick | app/api/voice/chat/route.ts:143-145 | a reranked position picks its chunk when it names one and is `undefined` otherwise |
| VoiceChat.Present | app/api/voice/chat/route.ts:147-150 | the chunks kept without reranking are all present, in search order |
| VoiceChat.Blocks | app/api/voice/chat/route.ts:154-163 | one source block per chunk, numbered from 1 in order |
| VoiceChat.Unwrap | app/api/voice/chat/route.ts:154-163 | the present chunks, in order |
| VoiceChat.VoiceContext | app/api/voice/chat/route.ts:154-164 | no chunks give the no-document message; otherwise the context exists exactly when every reranked entry names a chunk, and is then the blocks numbered from 1 joined by newlines |
| VoiceChat.Citations | app/api/voice/chat/route.ts:239-245 | one citation per chunk, in order |
| VoiceChat.VoiceChat | app/api/voice/chat/route.ts:76-261 | a missing or empty audio field is a 400, and so is a blank transcription; the search asks for threshold 0.2 and count 20, and its failure is a 500; a reply carries the non-blank transcription, a non-empty answer and the citations of the reranked chunks (none when the search returned no data); every error is a 400 or a 500 |
| VoiceChat.SearchFailureBeforeRerank | app/api/voice/chat/route.ts:113-143 | a failed search is answered before the reranker, the chat model or the speech synthesiser is consulted |
| VoiceChat.CitesFirstFiveWithoutReranker | app/api/voice/chat/route.ts:132-151 | without a reranker the reply cites the first five chunks in search order |
| VoiceChat.BadRerankIndexFails | app/api/voice/chat/route.ts:143-259 | a reranked position that names no chunk makes the whole request fail with 500 |
| VoiceChat.RerankAsksForAtMostFive | app/api/voice/chat/route.ts:134-141 | reranking is asked with the query, over each chunk’s `content_with_context` when truthy and its `content` otherwise, for `min(5, n)` results |

## Left out

- External services are not modelled. Their answers are parameters or given values: OpenAI embeddings, chat and Whisper, the Supabase RPC and queries, Cohere rerank, ElevenLabs speech, the GitHub REST API, the Ghost content API, RSS fetching and Readability/JSDOM parsing. Their behaviour is not visible in the code.
- The LiveKit wiring is not modelled: `entrypoint` in livekit-agent/agent.py, the simplified agent, and the token and dispatch routes. This is session plumbing of a hosted runtime.
- Persona texts, system prompts and LLM prompt templates are opaque values that pass through unchanged. They contain no logic.
- Randomness is an input: the value and cell of a new 2048 tile, the snake's food cell, the filler draws, the random figures of the summary templates, and the random part of ids. The model covers every outcome of the draw, not its distribution.
- URL parsing and relative-address resolution are parameters. They follow the WHATWG URL standard, which is not part of this model.
- `parseInt` and `Number` results that are `NaN` are `None`. The rest of IEEE floating-point arithmetic is not modelled.
- `Strings.Lower`: only ASCII letters are lowered. The Unicode case mapping of other letters (`É`, the Kelvin sign, Greek, Cyrillic) needs the Unicode case tables and is not modelled. Post content, titles, tags and queries can hold such letters, so `Posts.Search`, `Posts.PostsByTag`, the wiki-link slugs of `Markdown.Slug` and the command filter of the chat widget can differ from the source on text holding an upper-case non-ASCII letter: a search can miss a match, and a slug can keep such a letter upper-case.
- `ChatWidget.Navigate`: running a command is recorded as the command chosen; what each command's action does (messages, theme, Matrix mode, sending) is not modelled. Enter with the palette hidden sends the message, which belongs to the send path and is not part of the key model.
- `ChatWidget.DecodeLine`: a line of one of the four chunk types laid out otherwise than the endpoint writes it (other key order, spaces) is unreadable in the model, whereas `JSON.parse` would read it. The endpoint writes only the one layout.
- `Strings.JsPrefix`: `substring(0, n)` counts UTF-16 code units. The model keeps that count but does not model a cut that splits a surrogate pair.
- Key order of `Object.entries` over a map is the order of a given key list. Dafny maps have no insertion order.
- Floating-point rounding is not modelled. This covers `estimateCost` and `toFixed` in lib/metrics.ts, the `avg`, error-rate and cost rounding of the metrics route, the `Math.round` percentages of the GitHub languages and moods, the similarity averages beyond the empty case, and the carousel angles, offsets and easing.
- Clock and locale output are not modelled: `toLocaleDateString`, the locale branch of `formatDate` and of `formatHistoryTimestamp`, the week computation behind the week key of `getTimeKey` (the week start is given with each record), the current-streak walk back from today, the hourly heatmap, and invalid dates. These depend on the time zone and locale of the host.
- Concurrency and timing are not modelled: the rate limiter, cron routes and their sleeps, `Promise.all` batching, and React effect scheduling beyond the state transitions modelled. Each awaited step is taken in program order.
- `Metrics.InitialMetrics`: the `timestamp` entry is the number `Num(now)`, whereas the source stores a `Date` object. A path write below it, such as `setMetric('timestamp.x', v)`, adds a property to the `Date` in the source but fails in the model, because a number is truthy and not an object.
- `Metrics.VoiceMetricsCollector.constructor`: the record it builds carries the same numeric `timestamp` as `Metrics.InitialMetrics`, with the same consequence for path writes below `timestamp`.
- `Metrics.Child`: only the object's own keys are seen. A path part such as `constructor` or `toString` finds the inherited `Object.prototype` member in the source, so a write through it reaches that member there, while the model creates a fresh object.
- `Metrics.Get`: reads only own keys as well, so a path through an inherited `Object.prototype` name holds nothing in the model.
- `Metrics.VoiceMetricsCollector.Finalize`: only the performance record of stage durations and total duration is computed. The cost estimate is left out because it is floating-point arithmetic. The fire-and-forget database write (`saveToDatabase`) is left out because it is I/O.
- The custom-prompt store of lib/prompts/category-prompts.ts is read-only in the model. The save, has and reset calls are fetches to an API route whose server side is not part of this model.
- `generateSessionId` is not modelled. It mixes the clock with randomness.
- Upload names containing '/' are not modelled, and neither are write failures. Metadata whose JSON is not an object is treated as missing. The file system is not part of this model.
- Some GitHub statistics are left out: the code-impact figures, the organisation list, the peak hour, commits by month, the personal repository statistics and the language and mood percentages. Each is an I/O call or a floating-point percentage.
- Rendering markdown to HTML with remark is not modelled. It is a library call.
- UI components are not modelled: the ASCII, canvas and Three.js animations, the cursor, the dashboards, the test pages and the audio recorder. They have no logic beyond rendering.
- Embedding vectors and the metadata bookkeeping of the embedding script are not modelled. Vectors come from the embedding service, and the row insert is I/O.

## Findings

| source | as written | input that shows it | evidently intended | confidence | as-written member | corrected member |
|---|---|---|---|---|---|---|
| components/Game2048.tsx:97-101 | the turn-back loop sets `currentBoard = rotateBoard(movedBoard)` on every pass, so it keeps at most one quarter turn of the moved board. With no turns (left) it keeps the unmoved board; right and down come out turned by three and two extra quarter turns. Only `up` comes out right | the board `[[0,2,0,0],[0,0,0,0],[0,0,0,0],[0,0,0,0]]` moved left: `moved` is true, but the new tile is spawned on the unmoved board, so the `2` stays in the second column | turn the moved board back by the remaining quarter turns | not executed | Game2048.LeftMoveIgnored | Game2048.MoveIsTurnedSlide |
