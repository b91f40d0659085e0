/**
 * The prompt history kept in the browser's local storage
 * (lib/prompts/prompt-history.ts): saved prompts, newest first, at most
 * fifty of them, that can be renamed, deleted or cleared by category.
 * The storage slot is a field of `PromptStore`; the clock and the random
 * part of an id are parameters.
 */
module PromptHistory {
  import opened Wrappers
  import opened Strings
  import opened Sorting

  /** One saved prompt; `name` is the optional name the user gave it. */
  datatype Entry = Entry(id: string, category: string, prompt: string, timestamp: int, name: Option<string>)

  /**
   * What the storage slot holds: nothing (or the empty string), a text that
   * does not parse as a list of entries, or the stored list.
   */
  datatype Stored = Missing | Unreadable | Entries(entries: seq<Entry>)

  const MaxEntries: nat := 50

  /** The comparator `(a, b) => b.timestamp - a.timestamp`. */
  predicate NewestFirst(a: Entry, b: Entry) { a.timestamp >= b.timestamp }

  lemma NewestFirstIsPreorder()
    ensures TotalPreorder(NewestFirst)
  {
  }

  /**
   * `getPromptHistory`: nothing on the server, when the slot is empty or
   * when it does not parse; otherwise the stored entries, newest first.
   */
  function HistoryOf(onServer: bool, stored: Stored): (r: seq<Entry>)
    ensures onServer || !stored.Entries? ==> r == []
    ensures !onServer && stored.Entries? ==> multiset(r) == multiset(stored.entries) && SortedBy(r, NewestFirst)
  {
    if onServer then []
    else match stored
      case Entries(es) =>
        NewestFirstIsPreorder();
        SortBySorted(es, NewestFirst);
        SortBy(es, NewestFirst)
      case _ => []
  }

  /** Filtering keeps the order of what it keeps. */
  lemma {:induction false} FilterSorted<T>(s: seq<T>, p: T -> bool, le: (T, T) -> bool)
    requires SortedBy(s, le)
    ensures SortedBy(Filter(s, p), le)
  {
    if s != [] {
      FilterSorted(s[1..], p, le);
      var t := Filter(s[1..], p);
      forall k | 0 <= k < |t|
        ensures le(s[0], t[k])
      {
        var j :| 0 <= j < |s[1..]| && s[1..][j] == t[k];
        assert s[1 + j] == t[k];
      }
    }
  }

  /** `history.filter(entry => entry.category === category)`. */
  function InCategory(history: seq<Entry>, category: string): (r: seq<Entry>)
    ensures forall e :: e in r <==> e in history && e.category == category
  {
    Filter(history, (e: Entry) => e.category == category)
  }

  /** `getCategoryHistory`: the entries of one category, still newest first. */
  lemma CategoryHistorySorted(onServer: bool, stored: Stored, category: string)
    ensures SortedBy(InCategory(HistoryOf(onServer, stored), category), NewestFirst)
    ensures forall e :: e in InCategory(HistoryOf(onServer, stored), category) <==>
      !onServer && stored.Entries? && e in stored.entries && e.category == category
  {
    var h := HistoryOf(onServer, stored);
    FilterSorted(h, (e: Entry) => e.category == category, NewestFirst);
    if !onServer && stored.Entries? {
      forall e
        ensures e in h <==> e in stored.entries
      {
        assert e in h <==> e in multiset(h);
        assert e in stored.entries <==> e in multiset(stored.entries);
      }
    }
  }

  /** The id of a new entry: the time, a dash and the random suffix. */
  function NewId(now: nat, suffix: string): (id: string)
    ensures StartsWith(id, NatToString(now) + "-")
  {
    NatToString(now) + "-" + suffix
  }

  /** `history.unshift(entry)` then `slice(0, 50)`. */
  function Saved(history: seq<Entry>, entry: Entry): (r: seq<Entry>)
    ensures |r| == if |history| < MaxEntries then |history| + 1 else MaxEntries
    ensures r[0] == entry && r[1..] == history[..|r| - 1]
  {
    Take([entry] + history, MaxEntries)
  }

  /** `history.filter(entry => entry.id !== id)`. */
  function Without(history: seq<Entry>, id: string): (r: seq<Entry>)
    ensures forall e :: e in r <==> e in history && e.id != id
  {
    Filter(history, (e: Entry) => e.id != id)
  }

  /** `history.filter(entry => entry.category !== category)`. */
  function OutsideCategory(history: seq<Entry>, category: string): (r: seq<Entry>)
    ensures forall e :: e in r <==> e in history && e.category != category
  {
    Filter(history, (e: Entry) => e.category != category)
  }

  /** `history.map(entry => entry.id === id ? { ...entry, name } : entry)`. */
  function Renamed(history: seq<Entry>, id: string, name: string): (r: seq<Entry>)
    ensures |r| == |history|
    ensures forall k :: 0 <= k < |r| ==>
      r[k].id == history[k].id && r[k].category == history[k].category &&
      r[k].prompt == history[k].prompt && r[k].timestamp == history[k].timestamp
    ensures forall k :: 0 <= k < |r| && history[k].id == id ==> r[k].name == Some(name)
    ensures forall k :: 0 <= k < |r| && history[k].id != id ==> r[k] == history[k]
  {
    if history == [] then []
    else
      var e := history[0];
      [if e.id == id then e.(name := Some(name)) else e] + Renamed(history[1..], id, name)
  }

  /** The history of the browser's local storage. */
  class PromptStore {
    /** Whether the code runs on the server, where there is no window and no storage. */
    const onServer: bool
    /** The `prompt_history` storage slot. */
    var stored: Stored

    constructor(onServer: bool, stored: Stored)
      ensures this.onServer == onServer && this.stored == stored
    {
      this.onServer := onServer;
      this.stored := stored;
    }

    /** `getPromptHistory`. */
    function History(): seq<Entry>
      reads this
    {
      HistoryOf(onServer, stored)
    }

    /** `getCategoryHistory`. */
    function CategoryHistory(category: string): seq<Entry>
      reads this
    {
      InCategory(History(), category)
    }

    /**
     * `saveToHistory`: fails on the server; otherwise puts the new entry in
     * front of the history, keeps the first fifty and returns the entry.
     * `now` is `Date.now()` and `suffix` the random part of the id.
     */
    method SaveToHistory(category: string, prompt: string, name: Option<string>, now: nat, suffix: string) returns (r: Result<Entry>)
      modifies this
      ensures onServer ==> r.Failed? && stored == old(stored)
      ensures !onServer ==> r == Ok(Entry(NewId(now, suffix), category, prompt, now, name))
      ensures !onServer ==> stored == Entries(Saved(old(History()), r.value))
    {
      if onServer {
        return Failed("Cannot save history on server side");
      }
      var entry := Entry(NewId(now, suffix), category, prompt, now, name);
      var history := History();
      stored := Entries(Saved(history, entry));
      r := Ok(entry);
    }

    /** `deleteHistoryEntry`: stores the history without the entries carrying `id`. */
    method DeleteHistoryEntry(id: string)
      modifies this
      ensures onServer ==> stored == old(stored)
      ensures !onServer ==> stored == Entries(Without(old(History()), id))
    {
      if onServer {
        return;
      }
      var history := History();
      stored := Entries(Without(history, id));
    }

    /** `updateHistoryEntryName`: gives every entry carrying `id` the name. */
    method UpdateHistoryEntryName(id: string, name: string)
      modifies this
      ensures onServer ==> stored == old(stored)
      ensures !onServer ==> stored == Entries(Renamed(old(History()), id, name))
    {
      if onServer {
        return;
      }
      var history := History();
      stored := Entries(Renamed(history, id, name));
    }

    /** `clearHistory`: empties the slot. */
    method ClearHistory()
      modifies this
      ensures onServer ==> stored == old(stored)
      ensures !onServer ==> stored == Missing
      ensures History() == []
    {
      if onServer {
        return;
      }
      stored := Missing;
    }

    /** `clearCategoryHistory`: stores the history without the entries of the category. */
    method ClearCategoryHistory(category: string)
      modifies this
      ensures onServer ==> stored == old(stored)
      ensures !onServer ==> stored == Entries(OutsideCategory(old(History()), category))
      ensures forall e :: e !in CategoryHistory(category)
    {
      if onServer {
        return;
      }
      var history := History();
      stored := Entries(OutsideCategory(history, category));
      CategoryCleared(history, category);
    }
  }

  /** After a save the new entry is in the history and the history holds at most fifty entries. */
  lemma SavedIsListed(history: seq<Entry>, entry: Entry)
    ensures entry in HistoryOf(false, Entries(Saved(history, entry)))
    ensures |HistoryOf(false, Entries(Saved(history, entry)))| <= MaxEntries
  {
    var h := HistoryOf(false, Entries(Saved(history, entry)));
    assert entry in multiset(Saved(history, entry));
    assert |h| == |multiset(h)|;
  }

  /** After a delete no entry carries the id. */
  lemma DeletedIsGone(history: seq<Entry>, id: string)
    ensures forall e :: e in HistoryOf(false, Entries(Without(history, id))) ==> e.id != id
  {
    var h := HistoryOf(false, Entries(Without(history, id)));
    forall e | e in h
      ensures e.id != id
    {
      assert e in multiset(h);
      assert e in Without(history, id);
    }
  }

  /** After clearing a category the history has no entry of it. */
  lemma CategoryCleared(history: seq<Entry>, category: string)
    ensures forall e :: e !in InCategory(HistoryOf(false, Entries(OutsideCategory(history, category))), category)
  {
    var h := HistoryOf(false, Entries(OutsideCategory(history, category)));
    forall e | e in h
      ensures e.category != category
    {
      assert e in multiset(h);
      assert e in OutsideCategory(history, category);
    }
  }

  /**
   * `formatHistoryTimestamp`: `diffMs` is the time since the entry and
   * `localeDate` the entry's date rendered for the `ko-KR` locale.
   * `Math.floor` over a positive divisor is Dafny's `/`.
   */
  function FormatHistoryTimestamp(diffMs: int, localeDate: string): string {
    var mins := diffMs / 60000;
    var hours := diffMs / 3600000;
    var days := diffMs / 86400000;
    if mins < 1 then "방금 전"
    else if mins < 60 then NatToString(mins) + "분 전"
    else if hours < 24 then NatToString(hours) + "시간 전"
    else if days < 7 then NatToString(days) + "일 전"
    else localeDate
  }

  /**
   * Under a minute (or in the future) is "just now"; then the whole
   * minutes, hours or days elapsed, each within its unit's range; from a
   * week on, the date.
   */
  lemma TimestampBuckets(diffMs: int, localeDate: string)
    ensures diffMs < 60000 ==> FormatHistoryTimestamp(diffMs, localeDate) == "방금 전"
    ensures 60000 <= diffMs < 3600000 ==> exists n: nat ::
      1 <= n < 60 && n * 60000 <= diffMs < (n + 1) * 60000 &&
      FormatHistoryTimestamp(diffMs, localeDate) == NatToString(n) + "분 전"
    ensures 3600000 <= diffMs < 86400000 ==> exists n: nat ::
      1 <= n < 24 && n * 3600000 <= diffMs < (n + 1) * 3600000 &&
      FormatHistoryTimestamp(diffMs, localeDate) == NatToString(n) + "시간 전"
    ensures 86400000 <= diffMs < 7 * 86400000 ==> exists n: nat ::
      1 <= n < 7 && n * 86400000 <= diffMs < (n + 1) * 86400000 &&
      FormatHistoryTimestamp(diffMs, localeDate) == NatToString(n) + "일 전"
    ensures diffMs >= 7 * 86400000 ==> FormatHistoryTimestamp(diffMs, localeDate) == localeDate
  {
    if 60000 <= diffMs < 3600000 {
      var n := diffMs / 60000;
      assert n * 60000 <= diffMs < (n + 1) * 60000;
      assert 1 <= n < 60;
      assert FormatHistoryTimestamp(diffMs, localeDate) == NatToString(n) + "분 전";
    } else if 3600000 <= diffMs < 86400000 {
      var n := diffMs / 3600000;
      assert n * 3600000 <= diffMs < (n + 1) * 3600000;
      assert 1 <= n < 24;
      assert diffMs / 60000 >= 60;
      assert FormatHistoryTimestamp(diffMs, localeDate) == NatToString(n) + "시간 전";
    } else if 86400000 <= diffMs < 7 * 86400000 {
      var n := diffMs / 86400000;
      assert n * 86400000 <= diffMs < (n + 1) * 86400000;
      assert 1 <= n < 7;
      assert diffMs / 60000 >= 60 && diffMs / 3600000 >= 24;
      assert FormatHistoryTimestamp(diffMs, localeDate) == NatToString(n) + "일 전";
    } else if diffMs >= 7 * 86400000 {
      assert diffMs / 60000 >= 60 && diffMs / 3600000 >= 24 && diffMs / 86400000 >= 7;
    }
  }
}
