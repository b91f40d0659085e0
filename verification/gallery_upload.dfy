/**
 * The gallery upload endpoint: every uploaded file is stored under a
 * sanitised, time-stamped name, and the metadata sent beside it is merged
 * into the gallery's metadata record under that name.
 *
 * The request's form data is a list of named entries. Reading the stored
 * record and `JSON.parse` are parameters: `parse` gives the value a
 * metadata text denotes, or `None` where `JSON.parse` throws. `Date.now()`
 * is the parameter `now`, read once per file entry.
 */
module GalleryUpload {
  import opened Wrappers
  import opened Strings
  import opened Sorting
  import Gallery

  /** A form entry's value: a `File` (its name and contents) or a text field. */
  datatype FormValue = FileValue(name: string, bytes: seq<bv8>) | TextValue(text: string)

  datatype Entry = Entry(key: string, value: FormValue)

  /** A file written to the gallery directory. */
  datatype Written = Written(name: string, bytes: seq<bv8>)

  // ------------------------------------------------------------ file names

  /**
   * `path.extname` of a name without '/': from the last dot to the end,
   * except when there is no dot, the only dot starts the name, or the
   * name is "..".
   */
  function Ext(name: string): (r: string)
    ensures r == [] || (r[0] == '.' && '.' !in r[1..])
    ensures r == [] || (|r| < |name| && name == name[..|name| - |r|] + r)
    ensures Gallery.LastDot(name).None? ==> r == []
  {
    match Gallery.LastDot(name)
    case None => []
    case Some(d) =>
      if d == 0 || name == ".." then []
      else
        assert name == name[..d] + name[d..];
        name[d..]
  }

  /** `path.basename(name, ext)`: the name without its extension. */
  function BaseName(name: string): (r: string)
    ensures r + Ext(name) == name
  {
    name[..|name| - |Ext(name)|]
  }

  /** The characters `/[^a-zA-Z0-9-_]/` leaves alone. */
  predicate SafeChar(c: char) { IsAsciiLetter(c) || IsDigit(c) || c == '-' || c == '_' }

  predicate Safe(s: string) { forall k :: 0 <= k < |s| ==> SafeChar(s[k]) }

  /**
   * One character under `replace(/[^a-zA-Z0-9-_]/g, '_')`. The pattern has no
   * `u` flag, so it matches UTF-16 code units: a character outside the Basic
   * Multilingual Plane becomes two underscores.
   */
  function SanitizeChar(c: char): (r: string)
    ensures JsLen(r) == Units(c)
    ensures Safe(r)
    ensures SafeChar(c) ==> r == [c]
    ensures !SafeChar(c) ==> |r| == Units(c) && forall k :: 0 <= k < |r| ==> r[k] == '_'
  {
    if SafeChar(c) then [c] else if Units(c) == 2 then "__" else "_"
  }

  function Sanitize(s: string): (r: string)
    ensures Safe(r)
    ensures |s| <= |r|
  {
    if s == [] then []
    else
      var head := SanitizeChar(s[0]);
      var rest := Sanitize(s[1..]);
      assert forall k :: |head| <= k < |head + rest| ==> (head + rest)[k] == rest[k - |head|];
      head + rest
  }

  /** Sanitising keeps the JavaScript length of the name. */
  lemma {:induction false} SanitizeKeepsJsLen(s: string)
    ensures JsLen(Sanitize(s)) == JsLen(s)
  {
    if s != [] {
      SanitizeKeepsJsLen(s[1..]);
      JsLenAppend(SanitizeChar(s[0]), Sanitize(s[1..]));
    }
  }

  /**
   * Inside the Basic Multilingual Plane the replacement goes position by
   * position: a safe character is kept and every other one becomes `_`.
   */
  lemma {:induction false} SanitizeBmp(s: string)
    requires forall k :: 0 <= k < |s| ==> Units(s[k]) == 1
    ensures |Sanitize(s)| == |s|
    ensures forall k :: 0 <= k < |s| ==> Sanitize(s)[k] == if SafeChar(s[k]) then s[k] else '_'
  {
    if s != [] {
      SanitizeBmp(s[1..]);
      var r := Sanitize(s);
      var head := SanitizeChar(s[0]);
      assert |head| == 1;
      assert r == head + Sanitize(s[1..]);
      forall k | 0 <= k < |s|
        ensures r[k] == if SafeChar(s[k]) then s[k] else '_'
      {
        if k > 0 {
          assert s[1..][k - 1] == s[k];
        }
      }
    }
  }

  /** A name made of safe characters only is left as it is. */
  lemma {:induction false} SanitizeOfSafe(s: string)
    requires Safe(s)
    ensures Sanitize(s) == s
  {
    if s != [] {
      SanitizeOfSafe(s[1..]);
      assert s == [s[0]] + s[1..];
    }
  }

  /** The stored name `${baseName}_${timestamp}${ext}`. */
  function StoredName(name: string, timestamp: nat): string {
    Sanitize(BaseName(name)) + "_" + NatToString(timestamp) + Ext(name)
  }

  /** The stored name starts with the sanitised base name and ends with the extension. */
  lemma StoredNameShape(name: string, timestamp: nat)
    ensures EndsWith(StoredName(name, timestamp), Ext(name))
    ensures StartsWith(StoredName(name, timestamp), Sanitize(BaseName(name)))
  {
    var base := Sanitize(BaseName(name));
    var r := StoredName(name, timestamp);
    assert r[..|base|] == base;
    assert r[|r| - |Ext(name)|..] == Ext(name);
  }

  /** What precedes the extension in a stored name is made of safe characters. */
  lemma StampedSafe(name: string, timestamp: nat)
    ensures Safe(Sanitize(BaseName(name)) + "_" + NatToString(timestamp))
  {
    var a := Sanitize(BaseName(name));
    var b := NatToString(timestamp);
    forall k | 0 <= k < |a + "_" + b|
      ensures SafeChar((a + "_" + b)[k])
    {
      if k < |a| {
        assert (a + "_" + b)[k] == a[k];
      } else if k > |a| {
        assert (a + "_" + b)[k] == b[k - |a| - 1];
      }
    }
  }

  /** No dot in a safe string. */
  lemma SafeNoDot(s: string)
    requires Safe(s)
    ensures '.' !in s
  {
    forall k | 0 <= k < |s|
      ensures s[k] != '.'
    {
      assert SafeChar(s[k]);
    }
  }

  lemma {:induction false} LastDotOfExt(prefix: string, ext: string)
    requires ext != [] && ext[0] == '.' && '.' !in ext[1..]
    ensures Gallery.LastDot(prefix + ext) == Some(|prefix|)
  {
    var s := prefix + ext;
    if |ext| > 1 {
      var shorter := ext[..|ext| - 1];
      assert ext[|ext| - 1] in ext[1..];
      assert shorter[1..] == ext[1..|ext| - 1];
      assert forall c :: c in shorter[1..] ==> c in ext[1..];
      LastDotOfExt(prefix, shorter);
      assert s[..|s| - 1] == prefix + shorter;
    }
  }

  lemma {:induction false} LastDotOfDotless(s: string)
    requires '.' !in s
    ensures Gallery.LastDot(s) == None
  {
    if s != [] {
      assert s[|s| - 1] in s;
      assert forall c :: c in s[..|s| - 1] ==> c in s;
      LastDotOfDotless(s[..|s| - 1]);
    }
  }

  /** The stored file keeps the extension of the uploaded one. */
  lemma StoredNameKeepsExt(name: string, timestamp: nat)
    ensures Ext(StoredName(name, timestamp)) == Ext(name)
  {
    var prefix := Sanitize(BaseName(name)) + "_" + NatToString(timestamp);
    var ext := Ext(name);
    var r := prefix + ext;
    StampedSafe(name, timestamp);
    SafeNoDot(prefix);
    if ext == [] {
      assert r == prefix;
      LastDotOfDotless(r);
    } else {
      LastDotOfExt(prefix, ext);
      assert r[1] != '.';
      assert r[|prefix|..] == ext;
    }
  }

  // ------------------------------------------------------------ form data

  predicate IsFileEntry(e: Entry) { StartsWith(e.key, "file-") }

  /** `entries.filter(([key]) => key.startsWith('file-'))`. */
  function FileEntries(entries: seq<Entry>): (r: seq<Entry>)
    ensures forall e :: e in r <==> e in entries && StartsWith(e.key, "file-")
    ensures forall k :: 0 <= k < |r| ==> IsFileEntry(r[k])
  {
    var r := Filter(entries, IsFileEntry);
    assert forall k :: 0 <= k < |r| ==> r[k] in r;
    r
  }

  /** `formData.get(key)`: the value of the first entry with that key. */
  function Get(entries: seq<Entry>, key: string): (r: Option<FormValue>)
    ensures r.None? <==> forall k :: 0 <= k < |entries| ==> entries[k].key != key
    ensures r.Some? ==> exists k :: (0 <= k < |entries| && entries[k] == Entry(key, r.value)
      && forall j :: 0 <= j < k ==> entries[j].key != key)
  {
    if entries == [] then None
    else if entries[0].key == key then Some(entries[0].value)
    else
      var r := Get(entries[1..], key);
      if r.Some? then
        var k :| 0 <= k < |entries[1..]| && entries[1..][k] == Entry(key, r.value)
          && forall j :: 0 <= j < k ==> entries[1..][j].key != key;
        assert entries[k + 1] == Entry(key, r.value);
        r
      else r
  }

  /** The key of the metadata entry paired with file entry `e`: `metadata-` and the index that follows `file-`. */
  function MetadataKey(e: Entry): (r: string)
    requires IsFileEntry(e)
    ensures StartsWith(r, "metadata-") && "file-" + r[9..] == e.key
  {
    assert e.key == "file-" + e.key[5..];
    "metadata-" + e.key[5..]
  }

  /** The metadata text sent with file entry `e`: the value of its metadata entry, when that is a non-empty text. */
  function MetadataText(entries: seq<Entry>, e: Entry): (r: Option<string>)
    requires IsFileEntry(e)
    ensures r.Some? <==> (Get(entries, MetadataKey(e)).Some?
      && Get(entries, MetadataKey(e)).value.TextValue?
      && Get(entries, MetadataKey(e)).value.text != [])
    ensures r.Some? ==> r.value != [] && Get(entries, MetadataKey(e)) == Some(TextValue(r.value))
  {
    match Get(entries, MetadataKey(e))
    case Some(TextValue(t)) => if t != [] then Some(t) else None
    case _ => None
  }

  // ------------------------------------------------------------ the upload

  /** How a file is named on disk from its uploaded name and a timestamp; the endpoint uses `StoredName`. */
  type Namer = (string, nat) -> string

  /** The file written for file entry `e`, the `k`-th file entry, whose value is a `File`. */
  function WrittenOf(e: Entry, k: nat, now: nat -> nat, stored: Namer): Written
    requires e.value.FileValue?
  {
    Written(stored(e.value.name, now(k)), e.value.bytes)
  }

  /** The files written for the first `n` file entries. */
  function Writes(files: seq<Entry>, n: nat, now: nat -> nat, stored: Namer): (r: seq<Written>)
    requires n <= |files|
    ensures |r| <= n
  {
    if n == 0 then []
    else if files[n - 1].value.FileValue? then Writes(files, n - 1, now, stored) + [WrittenOf(files[n - 1], n - 1, now, stored)]
    else Writes(files, n - 1, now, stored)
  }

  /** The record after the `k`-th file entry `e`: parsed metadata is stored under the file's new name. */
  function MergeOne<M>(meta: map<string, M>, entries: seq<Entry>, e: Entry, k: nat,
                       now: nat -> nat, stored: Namer, parse: string -> Option<M>): map<string, M>
    requires IsFileEntry(e)
  {
    if e.value.TextValue? then meta
    else
      var text := MetadataText(entries, e);
      if text.None? then meta
      else
        var parsed := parse(text.value);
        if parsed.None? then meta
        else meta[stored(e.value.name, now(k)) := parsed.value]
  }

  /** The record after the first `n` file entries. */
  function Merged<M>(existing: map<string, M>, entries: seq<Entry>, files: seq<Entry>, n: nat,
                     now: nat -> nat, stored: Namer, parse: string -> Option<M>): map<string, M>
    requires n <= |files|
    requires forall k :: 0 <= k < |files| ==> IsFileEntry(files[k])
  {
    if n == 0 then existing
    else MergeOne(Merged(existing, entries, files, n - 1, now, stored, parse), entries, files[n - 1], n - 1, now, stored, parse)
  }

  /**
   * The body of the loop of `POST` for a file entry whose value is a `File`:
   * the file written under the name `stored` gives it (`Upload` passes
   * `StoredName`), and the record with its metadata, if any parses.
   */
  method StoreFile<M>(entries: seq<Entry>, e: Entry, k: nat, metadata: map<string, M>,
                      now: nat -> nat, stored: Namer, parse: string -> Option<M>)
    returns (w: Written, merged: map<string, M>)
    requires IsFileEntry(e) && e.value.FileValue?
    ensures w == WrittenOf(e, k, now, stored)
    ensures merged == MergeOne(metadata, entries, e, k, now, stored, parse)
  {
    var file := e.value;
    var metadataValue := MetadataText(entries, e);
    var filename := stored(file.name, now(k));
    w := Written(filename, file.bytes);
    merged := metadata;
    if metadataValue.Some? {
      var parsed := parse(metadataValue.value);
      if parsed.Some? {
        merged := metadata[filename := parsed.value];
      }
    }
  }

  /**
   * The loop of `POST`: writes each uploaded file under its stored name and
   * merges its metadata into `existing`, in the order of the form entries.
   */
  method Upload<M>(entries: seq<Entry>, existing: map<string, M>, now: nat -> nat, parse: string -> Option<M>)
    returns (written: seq<Written>, metadata: map<string, M>)
    ensures written == Writes(FileEntries(entries), |FileEntries(entries)|, now, StoredName)
    ensures metadata == Merged(existing, entries, FileEntries(entries), |FileEntries(entries)|, now, StoredName, parse)
  {
    var files := FileEntries(entries);
    written := [];
    metadata := existing;
    for k := 0 to |files|
      invariant written == Writes(files, k, now, StoredName)
      invariant metadata == Merged(existing, entries, files, k, now, StoredName, parse)
    {
      if !files[k].value.FileValue? {
        continue;
      }
      var w;
      w, metadata := StoreFile(entries, files[k], k, metadata, now, StoredName, parse);
      written := written + [w];
    }
  }

  // ------------------------------------------------------------ what the upload promises

  /** Some file written for the first `n` file entries is named `name`. */
  predicate WrittenAs(files: seq<Entry>, n: nat, now: nat -> nat, stored: Namer, name: string)
    requires n <= |files|
  {
    exists j :: 0 <= j < |Writes(files, n, now, stored)| && Writes(files, n, now, stored)[j].name == name
  }

  lemma WrittenAsStep(files: seq<Entry>, n: nat, now: nat -> nat, stored: Namer, name: string)
    requires 0 < n <= |files|
    ensures WrittenAs(files, n, now, stored, name) <==>
      WrittenAs(files, n - 1, now, stored, name)
      || (files[n - 1].value.FileValue? && WrittenOf(files[n - 1], n - 1, now, stored).name == name)
  {
    var before := Writes(files, n - 1, now, stored);
    var after := Writes(files, n, now, stored);
    if files[n - 1].value.FileValue? {
      var w := WrittenOf(files[n - 1], n - 1, now, stored);
      assert after == before + [w];
      assert after[|before|] == w;
      if WrittenAs(files, n - 1, now, stored, name) {
        var j :| 0 <= j < |before| && before[j].name == name;
        assert after[j] == before[j];
      }
      if WrittenAs(files, n, now, stored, name) {
        var j :| 0 <= j < |after| && after[j].name == name;
        if j < |before| {
          assert before[j] == after[j];
        }
      }
    } else {
      assert after == before;
    }
  }

  /** Entries of the stored record that no uploaded file is written over keep their metadata. */
  lemma {:induction false} MergedKeepsOthers<M>(existing: map<string, M>, entries: seq<Entry>, files: seq<Entry>,
                                                n: nat, now: nat -> nat, stored: Namer, parse: string -> Option<M>, name: string)
    requires n <= |files|
    requires forall k :: 0 <= k < |files| ==> IsFileEntry(files[k])
    requires name in existing && !WrittenAs(files, n, now, stored, name)
    ensures name in Merged(existing, entries, files, n, now, stored, parse)
    ensures Merged(existing, entries, files, n, now, stored, parse)[name] == existing[name]
  {
    if n > 0 {
      WrittenAsStep(files, n, now, stored, name);
      MergedKeepsOthers(existing, entries, files, n - 1, now, stored, parse, name);
    }
  }

  /** The record only gains entries named after uploaded files. */
  lemma {:induction false} MergedOnlyWritten<M>(existing: map<string, M>, entries: seq<Entry>, files: seq<Entry>,
                                                n: nat, now: nat -> nat, stored: Namer, parse: string -> Option<M>, name: string)
    requires n <= |files|
    requires forall k :: 0 <= k < |files| ==> IsFileEntry(files[k])
    requires name in Merged(existing, entries, files, n, now, stored, parse)
    ensures name in existing || WrittenAs(files, n, now, stored, name)
  {
    if n > 0 {
      WrittenAsStep(files, n, now, stored, name);
      var before := Merged(existing, entries, files, n - 1, now, stored, parse);
      if name in before {
        MergedOnlyWritten(existing, entries, files, n - 1, now, stored, parse, name);
      }
    }
  }

  /** The metadata parsed for file entry `j` is what the `j`-th file entry records. */
  ghost predicate Records<M>(entries: seq<Entry>, e: Entry, parse: string -> Option<M>, m: M)
    requires IsFileEntry(e)
  {
    e.value.FileValue? && MetadataText(entries, e).Some? && parse(MetadataText(entries, e).value) == Some(m)
  }

  /**
   * A file whose metadata parses has that metadata in the record, unless a
   * later file of the same request is stored under the same name.
   */
  lemma {:induction false} MergedRecords<M>(existing: map<string, M>, entries: seq<Entry>, files: seq<Entry>,
                                            n: nat, now: nat -> nat, stored: Namer, parse: string -> Option<M>, j: nat, m: M)
    requires j < n <= |files|
    requires forall k :: 0 <= k < |files| ==> IsFileEntry(files[k])
    requires Records(entries, files[j], parse, m)
    requires forall i :: j < i < n && files[i].value.FileValue? ==>
      WrittenOf(files[i], i, now, stored).name != WrittenOf(files[j], j, now, stored).name
    ensures WrittenOf(files[j], j, now, stored).name in Merged(existing, entries, files, n, now, stored, parse)
    ensures Merged(existing, entries, files, n, now, stored, parse)[WrittenOf(files[j], j, now, stored).name] == m
  {
    var name := WrittenOf(files[j], j, now, stored).name;
    var before := Merged(existing, entries, files, n - 1, now, stored, parse);
    var last := files[n - 1];
    assert Merged(existing, entries, files, n, now, stored, parse) == MergeOne(before, entries, last, n - 1, now, stored, parse);
    if j < n - 1 {
      MergedRecords(existing, entries, files, n - 1, now, stored, parse, j, m);
      assert name in before && before[name] == m;
      if last.value.FileValue? {
        assert WrittenOf(last, n - 1, now, stored).name != name;
        assert stored(last.value.name, now(n - 1)) != name;
      }
    } else {
      assert last == files[j];
      assert MergeOne(before, entries, last, n - 1, now, stored, parse) == before[name := m];
    }
  }

  /** When no file comes with metadata that parses, the record is left as it was. */
  lemma {:induction false} MergedWithoutMetadata<M>(existing: map<string, M>, entries: seq<Entry>, files: seq<Entry>,
                                                    n: nat, now: nat -> nat, stored: Namer, parse: string -> Option<M>)
    requires n <= |files|
    requires forall k :: 0 <= k < |files| ==> IsFileEntry(files[k])
    requires forall k :: 0 <= k < n && files[k].value.FileValue? && MetadataText(entries, files[k]).Some? ==>
      parse(MetadataText(entries, files[k]).value).None?
    ensures Merged(existing, entries, files, n, now, stored, parse) == existing
  {
    if n > 0 {
      MergedWithoutMetadata(existing, entries, files, n - 1, now, stored, parse);
    }
  }

  /** One file is written per file entry whose value is a `File`, each under its stored name. */
  lemma {:induction false} WritesOneEach(files: seq<Entry>, n: nat, now: nat -> nat, stored: Namer)
    requires n <= |files|
    requires forall k :: 0 <= k < n ==> files[k].value.FileValue?
    ensures |Writes(files, n, now, stored)| == n
    ensures forall k :: 0 <= k < n ==> Writes(files, n, now, stored)[k] == WrittenOf(files[k], k, now, stored)
  {
    if n > 0 {
      WritesOneEach(files, n - 1, now, stored);
      var before := Writes(files, n - 1, now, stored);
      var after := Writes(files, n, now, stored);
      assert after == before + [WrittenOf(files[n - 1], n - 1, now, stored)];
      forall k | 0 <= k < n
        ensures after[k] == WrittenOf(files[k], k, now, stored)
      {
        if k < n - 1 {
          assert after[k] == before[k];
        }
      }
    }
  }

  /** Every file written comes from a file entry whose value is a `File`. */
  lemma {:induction false} WritesFromFiles(files: seq<Entry>, n: nat, now: nat -> nat, stored: Namer)
    requires n <= |files|
    ensures forall j :: 0 <= j < |Writes(files, n, now, stored)| ==>
      exists k :: 0 <= k < n && files[k].value.FileValue?
        && Writes(files, n, now, stored)[j] == WrittenOf(files[k], k, now, stored)
  {
    if n > 0 {
      WritesFromFiles(files, n - 1, now, stored);
      var before := Writes(files, n - 1, now, stored);
      var after := Writes(files, n, now, stored);
      assert |after| > |before| ==> files[n - 1].value.FileValue? && after == before + [WrittenOf(files[n - 1], n - 1, now, stored)];
      assert |after| == |before| ==> after == before;
      forall j | 0 <= j < |after|
        ensures exists k :: 0 <= k < n && files[k].value.FileValue? && after[j] == WrittenOf(files[k], k, now, stored)
      {
        if j < |before| {
          assert after[j] == before[j];
          var k :| 0 <= k < n - 1 && files[k].value.FileValue? && before[j] == WrittenOf(files[k], k, now, stored);
        } else {
          assert after[j] == WrittenOf(files[n - 1], n - 1, now, stored);
        }
      }
    } else {
      assert Writes(files, n, now, stored) == [];
    }
  }

  /**
   * `loadMetadata`: the stored record, or the empty record when the file
   * cannot be read or does not parse.
   */
  function LoadMetadata<M>(content: Result<string>, parse: string -> Option<map<string, M>>): (r: map<string, M>)
    ensures r != map[] ==> content.Ok? && parse(content.value) == Some(r)
  {
    match content
    case Failed(_) => map[]
    case Ok(text) =>
      match parse(text)
      case Some(record) => record
      case None => map[]
  }

  /** A record saved with `JSON.stringify` is loaded back unchanged, given that parsing undoes it. */
  lemma LoadAfterSave<M>(record: map<string, M>, stringify: map<string, M> -> string,
                         parse: string -> Option<map<string, M>>)
    requires parse(stringify(record)) == Some(record)
    ensures LoadMetadata(Ok(stringify(record)), parse) == record
  {
  }
}
