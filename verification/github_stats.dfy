/**
 * The statistics the GitHub endpoint derives from the user's repositories
 * and recent events: the five-minute cache, commits per day and the
 * streaks and weekly average drawn from them, the language ranking, the
 * commit-message moods and the three personality traits.
 *
 * The GitHub REST API is not part of this model: its answers are the
 * inputs. Time enters as numbers: `now` and `since` (three months before
 * the request) are milliseconds since the epoch, each event carries its
 * creation time, and the local hour and day of the week that `getHours`
 * and `getDay` give for it.
 */
module GithubStats {
  import opened Wrappers
  import opened Strings
  import opened Sorting
  import Posts

  // ------------------------------------------------------------ the cache

  /** Five minutes, in milliseconds. */
  const CacheDuration: int := 5 * 60 * 1000

  datatype Cached<T> = Cached(data: T, timestamp: int)

  /** The cache is used while it is less than five minutes old. */
  predicate Fresh<T>(entry: Option<Cached<T>>, now: int) {
    entry.Some? && now - entry.value.timestamp < CacheDuration
  }

  /** A cache that is fresh now was fresh at every earlier moment after it was saved. */
  lemma FreshEarlier<T>(entry: Option<Cached<T>>, earlier: int, now: int)
    requires earlier <= now && Fresh(entry, now)
    ensures Fresh(entry, earlier)
  {
  }

  /** The module-level `cache` of the endpoint. */
  class StatsCache<T> {
    var entry: Option<Cached<T>>

    constructor()
      ensures entry == None
    {
      entry := None;
    }

    /** The check at the start of `GET`: the cached statistics, when they are fresh. */
    method Lookup(now: int) returns (r: Option<T>)
      ensures r.Some? <==> Fresh(entry, now)
      ensures r.Some? ==> r.value == entry.value.data
    {
      if entry.Some? && now - entry.value.timestamp < CacheDuration {
        r := Some(entry.value.data);
      } else {
        r := None;
      }
    }

    /** Saving the statistics just computed, stamped with the time of saving. */
    method Store(data: T, savedAt: int)
      modifies this
      ensures entry == Some(Cached(data, savedAt))
    {
      entry := Some(Cached(data, savedAt));
    }
  }

  /** What was saved is served for the five minutes that follow, and not after. */
  lemma ServedForFiveMinutes<T>(data: T, savedAt: int, now: int)
    requires savedAt <= now
    ensures Fresh(Some(Cached(data, savedAt)), now) <==> now < savedAt + CacheDuration
  {
  }

  // ------------------------------------------------------------ events

  datatype Commit = Commit(message: Option<string>)

  /**
   * A GitHub event: its type, creation time, the commits of its payload
   * (`None` when the payload has none), and the local hour and day of the
   * week of its creation.
   */
  datatype Event = Event(kind: string, created: int, commits: Option<seq<Commit>>, hour: nat, weekday: nat)

  /** `event.payload?.commits?.length || 1`: a push without listed commits counts as one. */
  function CommitCount(e: Event): (n: nat)
    ensures n >= 1
    ensures e.commits.Some? && e.commits.value != [] ==> n == |e.commits.value|
    ensures e.commits.None? || e.commits.value == [] ==> n == 1
  {
    if e.commits.Some? && |e.commits.value| > 0 then |e.commits.value| else 1
  }

  const MsPerDay: int := 1000 * 60 * 60 * 24

  /**
   * The calendar day of an event, as a day number. The endpoint keys days by
   * the text `YYYY-MM-DD` of the UTC date; those texts sort like the day
   * numbers, and two keys one day apart are day numbers one apart.
   */
  function Day(e: Event): int { e.created / MsPerDay }

  predicate IsPush(e: Event) { e.kind == "PushEvent" }

  predicate Recent(e: Event, since: int) { e.created > since }

  predicate CountedOn(e: Event, since: int, day: int) { IsPush(e) && Recent(e, since) && Day(e) == day }

  /** The commits of the recent pushes on `day` among `events`. */
  function DayTotal(events: seq<Event>, since: int, day: int): nat {
    if events == [] then 0
    else
      var last := events[|events| - 1];
      DayTotal(events[..|events| - 1], since, day) + if CountedOn(last, since, day) then CommitCount(last) else 0
  }

  /** The commits of all recent pushes among `events`. */
  function RecentCommits(events: seq<Event>, since: int): nat {
    if events == [] then 0
    else
      var last := events[|events| - 1];
      RecentCommits(events[..|events| - 1], since) + if IsPush(last) && Recent(last, since) then CommitCount(last) else 0
  }

  /** The values of `counts` at the keys `order`, added up. */
  function SumAt(order: seq<int>, counts: map<int, nat>): nat
    requires forall k :: 0 <= k < |order| ==> order[k] in counts
  {
    if order == [] then 0 else SumAt(order[..|order| - 1], counts) + counts[order[|order| - 1]]
  }

  /** The commits of the recent pushes whose day is listed in `days`. */
  function CommitsOn(events: seq<Event>, since: int, days: seq<int>): nat {
    if events == [] then 0
    else
      var last := events[|events| - 1];
      CommitsOn(events[..|events| - 1], since, days) + if CountedOn(last, since, Day(last)) && Day(last) in days then CommitCount(last) else 0
  }

  /** Listing one more day adds the commits of that day. */
  lemma {:induction false} CommitsOnSnoc(events: seq<Event>, since: int, days: seq<int>, day: int)
    requires day !in days
    ensures CommitsOn(events, since, days + [day]) == CommitsOn(events, since, days) + DayTotal(events, since, day)
  {
    if events != [] {
      CommitsOnSnoc(events[..|events| - 1], since, days, day);
    }
  }

  /** Adding up the day totals of distinct days gives the commits on those days. */
  lemma {:induction false} SumOfDayTotals(events: seq<Event>, since: int, order: seq<int>, counts: map<int, nat>)
    requires forall k :: 0 <= k < |order| ==> order[k] in counts && counts[order[k]] == DayTotal(events, since, order[k])
    requires forall a, b :: 0 <= a < b < |order| ==> order[a] != order[b]
    ensures SumAt(order, counts) == CommitsOn(events, since, order)
  {
    if order == [] {
      CommitsOnNone(events, since);
    } else {
      var init := order[..|order| - 1];
      var last := order[|order| - 1];
      SumOfDayTotals(events, since, init, counts);
      assert order == init + [last];
      assert last !in init by {
        forall a | 0 <= a < |init|
          ensures init[a] != last
        {
          assert init[a] == order[a];
        }
      }
      CommitsOnSnoc(events, since, init, last);
    }
  }

  /** No listed day, no commits. */
  lemma {:induction false} CommitsOnNone(events: seq<Event>, since: int)
    ensures CommitsOn(events, since, []) == 0
  {
    if events != [] {
      CommitsOnNone(events[..|events| - 1], since);
    }
  }

  /** When every active day is listed, the commits on the listed days are all the recent commits. */
  lemma {:induction false} CommitsOnActive(events: seq<Event>, since: int, days: seq<int>)
    requires forall d :: Active(events, since, d) ==> d in days
    ensures CommitsOn(events, since, days) == RecentCommits(events, since)
  {
    if events != [] {
      ActiveStep(events, since);
      CommitsOnActive(events[..|events| - 1], since, days);
    }
  }

  /** `day` is the day of some recent push among `events`. */
  predicate Active(events: seq<Event>, since: int, day: int) {
    exists k :: 0 <= k < |events| && CountedOn(events[k], since, day)
  }

  lemma {:induction false} DayTotalPositive(events: seq<Event>, since: int, day: int)
    ensures DayTotal(events, since, day) > 0 <==> Active(events, since, day)
  {
    if events != [] {
      var init := events[..|events| - 1];
      DayTotalPositive(init, since, day);
      if Active(init, since, day) {
        var k :| 0 <= k < |init| && CountedOn(init[k], since, day);
        assert events[k] == init[k];
      }
      if Active(events, since, day) && !CountedOn(events[|events| - 1], since, day) {
        var k :| 0 <= k < |events| && CountedOn(events[k], since, day);
        assert init[k] == events[k];
      }
    }
  }

  /**
   * `commitsByDay`: the commits of the recent pushes, added up per day. The
   * object is a map together with its keys in insertion order; the filter
   * to push events and the recency test are made in the same pass.
   */
  method CommitsByDay(events: seq<Event>, since: int) returns (counts: map<int, nat>, order: seq<int>)
    ensures forall d :: d in counts <==> Active(events, since, d)
    ensures forall d :: d in counts ==> counts[d] == DayTotal(events, since, d) && counts[d] >= 1
    ensures forall d :: d in order <==> d in counts
    ensures forall i, j :: 0 <= i < j < |order| ==> order[i] != order[j]
  {
    counts := map[];
    order := [];
    for i := 0 to |events|
      invariant forall d :: d in counts <==> Active(events[..i], since, d)
      invariant forall d :: d in counts ==> counts[d] == DayTotal(events[..i], since, d)
      invariant forall d :: d in order <==> d in counts
      invariant forall a, b :: 0 <= a < b < |order| ==> order[a] != order[b]
    {
      var e := events[i];
      assert events[..i + 1][..i] == events[..i];
      assert events[..i + 1][i] == e;
      ActiveStep(events[..i + 1], since);
      assert forall d :: (DayTotal(events[..i + 1], since, d) ==
        DayTotal(events[..i], since, d) + if CountedOn(e, since, d) then CommitCount(e) else 0);
      if IsPush(e) && e.created > since {
        var day := e.created / MsPerDay;
        DayTotalPositive(events[..i], since, day);
        var commits := if e.commits.Some? && |e.commits.value| > 0 then |e.commits.value| else 1;
        if day in counts {
          counts := counts[day := counts[day] + commits];
        } else {
          counts := counts[day := commits];
          order := order + [day];
        }
      }
    }
    assert events[..|events|] == events;
    forall d | d in counts
      ensures counts[d] >= 1
    {
      DayTotalPositive(events, since, d);
    }
  }

  lemma ActiveStep(events: seq<Event>, since: int)
    requires events != []
    ensures forall d :: Active(events, since, d) <==>
      Active(events[..|events| - 1], since, d) || CountedOn(events[|events| - 1], since, d)
  {
    var init := events[..|events| - 1];
    forall d
      ensures Active(events, since, d) <==> Active(init, since, d) || CountedOn(events[|events| - 1], since, d)
    {
      if Active(init, since, d) {
        var k :| 0 <= k < |init| && CountedOn(init[k], since, d);
        assert events[k] == init[k];
      }
      if Active(events, since, d) && !CountedOn(events[|events| - 1], since, d) {
        var k :| 0 <= k < |events| && CountedOn(events[k], since, d);
        assert init[k] == events[k];
      }
    }
  }

  // ------------------------------------------------------------ streaks

  /** `days[lo..hi]` is a run of days, each one day after the one before. */
  predicate IsRun(days: seq<int>, lo: int, hi: int) {
    0 <= lo < hi <= |days| && forall k :: lo < k < hi ==> days[k] == days[k - 1] + 1
  }

  /** The longest run of `days` is `n` long: some run has that length and none is longer. */
  ghost predicate LongestRunIs(days: seq<int>, n: nat) {
    (n == 0 <==> days == [])
    && (days != [] ==> exists lo, hi :: IsRun(days, lo, hi) && hi - lo == n)
    && forall lo, hi :: IsRun(days, lo, hi) ==> hi - lo <= n
  }

  /**
   * The longest-streak loop over the sorted day keys: `tempStreak` grows
   * while each day follows the one before and starts again at 1 otherwise.
   */
  method LongestStreak(days: seq<int>) returns (longest: nat)
    ensures LongestRunIs(days, longest)
    ensures longest <= |days|
  {
    longest := 0;
    var temp := 0;
    for i := 0 to |days|
      invariant i == 0 <==> temp == 0
      invariant temp <= i && (i > 0 ==> IsRun(days, i - temp, i))
      invariant i > 0 && i - temp > 0 ==> days[i - temp] != days[i - temp - 1] + 1
      invariant temp <= longest <= i
      invariant i == 0 <==> longest == 0
      invariant i > 0 ==> exists lo, hi :: hi <= i && IsRun(days, lo, hi) && hi - lo == longest
      invariant forall lo, hi :: hi <= i && IsRun(days, lo, hi) ==> hi - lo <= longest
    {
      if i == 0 {
        temp := 1;
      } else {
        var diffDays := days[i] - days[i - 1];
        if diffDays == 1 {
          temp := temp + 1;
        } else {
          temp := 1;
        }
      }
      assert IsRun(days, i + 1 - temp, i + 1);
      RunEndsWithin(days, i + 1 - temp, i + 1);
      if temp > longest {
        longest := temp;
      }
      assert forall lo, hi :: hi <= i + 1 && IsRun(days, lo, hi) ==> hi <= i || IsRun(days, lo, i + 1);
    }
  }

  /** A run that cannot be extended to the left holds every run that ends where it ends. */
  lemma RunEndsWithin(days: seq<int>, start: nat, end: nat)
    requires IsRun(days, start, end)
    requires start > 0 ==> days[start] != days[start - 1] + 1
    ensures forall lo :: IsRun(days, lo, end) ==> start <= lo
  {
    forall lo | IsRun(days, lo, end)
      ensures start <= lo
    {
    }
  }

  /** Ascending day numbers: the order `sort()` gives the `YYYY-MM-DD` keys. */
  predicate DayLe(a: int, b: int) { a <= b }

  /**
   * The productivity figures: the active days, the longest streak over the
   * sorted day keys, and the weekly average of the commits per active day.
   */
  method Productivity(events: seq<Event>, since: int) returns (activeDays: nat, longest: nat, weeklyAvg: nat)
    ensures activeDays == 0 <==> longest == 0
    ensures longest <= activeDays
    ensures activeDays == 0 ==> weeklyAvg == 0
    ensures activeDays == 0 <==> forall k :: 0 <= k < |events| ==> !(IsPush(events[k]) && Recent(events[k], since))
    ensures weeklyAvg == WeeklyAvg(RecentCommits(events, since), activeDays)
    ensures exists days: seq<int> :: ActiveDaysSorted(events, since, days) && |days| == activeDays && LongestRunIs(days, longest)
  {
    var counts, order := CommitsByDay(events, since);
    assert TotalPreorder(DayLe);
    var sortedDates := SortBy(order, DayLe);
    DayKeys(events, since, counts, order, sortedDates);
    longest := LongestStreak(sortedDates);
    activeDays := |sortedDates|;
    var total := TotalCommits(order, counts);
    weeklyAvg := WeeklyAvg(total, activeDays);
    assert ActiveDaysSorted(events, since, sortedDates) && |sortedDates| == activeDays && LongestRunIs(sortedDates, longest);
  }

  /** `days` holds each active day once, in ascending order. */
  ghost predicate ActiveDaysSorted(events: seq<Event>, since: int, days: seq<int>) {
    && SortedBy(days, DayLe)
    && (forall i, j :: 0 <= i < j < |days| ==> days[i] != days[j])
    && (forall d :: d in days <==> Active(events, since, d))
  }

  /**
   * What the day keys of `CommitsByDay` give: sorted, they are the active
   * days, and their totals add up to every recent commit.
   */
  lemma DayKeys(events: seq<Event>, since: int, counts: map<int, nat>, order: seq<int>, sortedDates: seq<int>)
    requires forall d :: d in counts <==> Active(events, since, d)
    requires forall d :: d in counts ==> counts[d] == DayTotal(events, since, d) && counts[d] >= 1
    requires forall d :: d in order <==> d in counts
    requires forall i, j :: 0 <= i < j < |order| ==> order[i] != order[j]
    requires sortedDates == SortBy(order, DayLe)
    ensures ActiveDaysSorted(events, since, sortedDates)
    ensures |sortedDates| == |order|
    ensures SumAt(order, counts) == RecentCommits(events, since)
    ensures |order| == 0 <==> forall k :: 0 <= k < |events| ==> !(IsPush(events[k]) && Recent(events[k], since))
  {
    SortedKeys(order, sortedDates);
    SumOfDayTotals(events, since, order, counts);
    CommitsOnActive(events, since, order);
    if |order| == 0 {
      forall k | 0 <= k < |events|
        ensures !(IsPush(events[k]) && Recent(events[k], since))
      {
        assert !Active(events, since, Day(events[k]));
      }
    } else {
      assert order[0] in counts;
    }
  }

  /** Sorting the distinct day keys keeps them distinct and keeps the same days. */
  lemma SortedKeys(order: seq<int>, sortedDates: seq<int>)
    requires forall a, b :: 0 <= a < b < |order| ==> order[a] != order[b]
    requires sortedDates == SortBy(order, DayLe)
    ensures SortedBy(sortedDates, DayLe)
    ensures forall a, b :: 0 <= a < b < |sortedDates| ==> sortedDates[a] != sortedDates[b]
    ensures forall d :: d in sortedDates <==> d in order
    ensures |sortedDates| == |order|
  {
    assert TotalPreorder(DayLe);
    SortBySorted(order, DayLe);
    Posts.DistinctPermutation(order, sortedDates);
    forall d
      ensures d in sortedDates <==> d in order
    {
      assert d in sortedDates <==> d in multiset(sortedDates);
      assert d in order <==> d in multiset(order);
    }
  }

  /** `Object.values(commitsByDay).reduce((a, b) => a + b, 0)`. */
  method TotalCommits(order: seq<int>, counts: map<int, nat>) returns (total: nat)
    requires forall k :: 0 <= k < |order| ==> order[k] in counts
    ensures total == SumAt(order, counts)
  {
    total := 0;
    for i := 0 to |order|
      invariant total == SumAt(order[..i], counts)
    {
      assert order[..i + 1][..i] == order[..i];
      total := total + counts[order[i]];
    }
    assert order[..|order|] == order;
  }

  /**
   * `Math.round(total / activeDays * 7)`, or 0 without active days: the
   * commits per active day times seven, to the nearest integer, halves up.
   */
  function WeeklyAvg(total: nat, activeDays: nat): (r: nat)
    ensures activeDays == 0 ==> r == 0
    ensures activeDays > 0 ==> 2 * activeDays * r <= 14 * total + activeDays < 2 * activeDays * (r + 1)
  {
    if activeDays > 0 then (14 * total + activeDays) / (2 * activeDays) else 0
  }

  // ------------------------------------------------------------ languages

  /** A repository's `language` is truthy. */
  predicate HasLanguage(language: Option<string>) { language.Some? && language.value != [] }

  /** How many of the repositories are written in `name`. */
  function Uses(languages: seq<Option<string>>, name: string): nat {
    if languages == [] then 0
    else Uses(languages[..|languages| - 1], name) + if languages[|languages| - 1] == Some(name) then 1 else 0
  }

  /**
   * `languageCounts`: the repositories counted per language, the keys in
   * insertion order; repositories without a language are skipped.
   */
  method CountLanguages(languages: seq<Option<string>>) returns (counts: map<string, nat>, order: seq<string>)
    ensures forall n :: n in counts <==> n != [] && Uses(languages, n) > 0
    ensures forall n :: n in counts ==> counts[n] == Uses(languages, n)
    ensures forall n :: n in order <==> n in counts
    ensures forall i, j :: 0 <= i < j < |order| ==> order[i] != order[j]
  {
    counts := map[];
    order := [];
    for i := 0 to |languages|
      invariant forall n :: n in counts <==> n != [] && Uses(languages[..i], n) > 0
      invariant forall n :: n in counts ==> counts[n] == Uses(languages[..i], n)
      invariant forall n :: n in order <==> n in counts
      invariant forall a, b :: 0 <= a < b < |order| ==> order[a] != order[b]
    {
      assert languages[..i + 1][..i] == languages[..i];
      assert languages[..i + 1][i] == languages[i];
      if HasLanguage(languages[i]) {
        var name := languages[i].value;
        if name in counts {
          counts := counts[name := counts[name] + 1];
        } else {
          counts := counts[name := 1];
          order := order + [name];
        }
      }
    }
    assert languages[..|languages|] == languages;
  }

  datatype LangCount = LangCount(name: string, count: nat)

  /** `Object.entries(languageCounts)`. */
  function Entries(counts: map<string, nat>, order: seq<string>): (r: seq<LangCount>)
    requires forall n :: n in order ==> n in counts
    ensures |r| == |order|
    ensures forall k :: 0 <= k < |r| ==> r[k] == LangCount(order[k], counts[order[k]])
  {
    seq(|order|, k requires 0 <= k < |order| => LangCount(order[k], counts[order[k]]))
  }

  /** The comparator `b[1] - a[1]`, as "may precede": more repositories first. */
  predicate MoreUsed(a: LangCount, b: LangCount) { a.count >= b.count }

  /** `topLanguages` without the percentages: the five most used languages (a stable sort). */
  function TopLanguages(entries: seq<LangCount>): (r: seq<LangCount>)
    ensures |r| == if |entries| < 5 then |entries| else 5
    ensures multiset(r) <= multiset(entries)
  {
    var sorted := SortBy(entries, MoreUsed);
    assert sorted == Take(sorted, 5) + sorted[|Take(sorted, 5)|..];
    Take(sorted, 5)
  }

  /** The top languages come most used first, and no language left out is used more than one kept. */
  lemma TopLanguagesRanked(entries: seq<LangCount>)
    ensures SortedBy(TopLanguages(entries), MoreUsed)
    ensures forall e :: e in entries && e !in TopLanguages(entries) ==>
      forall k :: 0 <= k < |TopLanguages(entries)| ==> e.count <= TopLanguages(entries)[k].count
  {
    var sorted := SortBy(entries, MoreUsed);
    var top := TopLanguages(entries);
    assert TotalPreorder(MoreUsed);
    SortBySorted(entries, MoreUsed);
    assert top == sorted[..|top|];
    forall e | e in entries && e !in top
      ensures forall k :: 0 <= k < |top| ==> e.count <= top[k].count
    {
      assert e in multiset(sorted);
      Dominated(sorted, |top|, e);
    }
  }

  /** In a sorted list, an element outside the first `n` is used no more than each of them. */
  lemma Dominated(sorted: seq<LangCount>, n: nat, e: LangCount)
    requires SortedBy(sorted, MoreUsed) && n <= |sorted|
    requires e in sorted && e !in sorted[..n]
    ensures forall k :: 0 <= k < n ==> e.count <= sorted[k].count
  {
    var j :| 0 <= j < |sorted| && sorted[j] == e;
    forall i | 0 <= i < n
      ensures sorted[i] != e
    {
      assert sorted[..n][i] == sorted[i];
    }
    assert n <= j;
    forall k | 0 <= k < n
      ensures e.count <= sorted[k].count
    {
      assert MoreUsed(sorted[k], sorted[j]);
    }
  }

  /** The languages counted are exactly the languages of the repositories, each with its number of repositories. */
  lemma LanguagesCounted(languages: seq<Option<string>>, counts: map<string, nat>, order: seq<string>, name: string)
    requires forall n :: n in counts <==> n != [] && Uses(languages, n) > 0
    requires forall n :: n in counts ==> counts[n] == Uses(languages, n)
    requires forall n :: n in order <==> n in counts
    requires name != [] && Some(name) in languages
    ensures LangCount(name, Uses(languages, name)) in Entries(counts, order)
  {
    UsesPositive(languages, name);
    var k :| 0 <= k < |order| && order[k] == name;
    assert Entries(counts, order)[k] == LangCount(name, Uses(languages, name));
  }

  lemma {:induction false} UsesPositive(languages: seq<Option<string>>, name: string)
    ensures Uses(languages, name) > 0 <==> Some(name) in languages
  {
    if languages != [] {
      var init := languages[..|languages| - 1];
      UsesPositive(init, name);
      assert languages == init + [languages[|languages| - 1]];
    }
  }

  // ------------------------------------------------------------ moods

  datatype Mood = Feature | Bugfix | Refactor | Docs | Other

  /** The moods that have keywords, in the order they are tried. */
  const Moods: seq<Mood> := [Feature, Bugfix, Refactor, Docs]

  /** `moodKeywords`. */
  function Keywords(m: Mood): seq<string> {
    match m
    case Feature => ["feat", "add", "new", "implement", "✨", "\U{1F389}"]
    case Bugfix => ["fix", "bug", "issue", "error", "\U{1F41B}", "\U{1F527}"]
    case Refactor => ["refactor", "clean", "improve", "update", "♻️", "⚡"]
    case Docs => ["doc", "readme", "comment", "\U{1F4DD}", "\U{1F4DA}"]
    case Other => []
  }

  /** `keywords.some(kw => message.includes(kw))`. */
  predicate MatchesMood(message: string, m: Mood) {
    exists k :: 0 <= k < |Keywords(m)| && Contains(message, Keywords(m)[k])
  }

  /** The first of `moods` whose keywords the message contains, or `Other`. */
  function FirstMood(message: string, moods: seq<Mood>): (r: Mood)
    ensures r == Other <==> forall j :: 0 <= j < |moods| ==> !MatchesMood(message, moods[j])
    ensures r != Other ==>
      exists j :: 0 <= j < |moods| && moods[j] == r && MatchesMood(message, r) &&
        forall i :: 0 <= i < j ==> !MatchesMood(message, moods[i])
  {
    if moods == [] then Other
    else if MatchesMood(message, moods[0]) then moods[0]
    else FirstMood(message, moods[1..])
  }

  /** The mood of one lowered commit message: the loop over the moods that stops at the first match. */
  method ClassifyMessage(message: string) returns (mood: Mood)
    ensures mood == FirstMood(message, Moods)
  {
    mood := Other;
    for i := 0 to |Moods|
      invariant FirstMood(message, Moods) == FirstMood(message, Moods[i..])
    {
      if MatchesMood(message, Moods[i]) {
        mood := Moods[i];
        break;
      }
      assert Moods[i..][1..] == Moods[i + 1..];
    }
  }

  /** `(commit.message || '').toLowerCase()`. */
  function MessageOf(c: Commit): string {
    Lower(if c.message.Some? then c.message.value else "")
  }

  /** The commits a push event lists: `event.payload?.commits || []`; none for other events. */
  function CommitsOf(e: Event): seq<Commit> {
    if IsPush(e) && e.commits.Some? then e.commits.value else []
  }

  /** How many of `commits` fall in mood `m`. */
  function Classified(commits: seq<Commit>, m: Mood): nat {
    if commits == [] then 0
    else
      Classified(commits[..|commits| - 1], m)
      + if FirstMood(MessageOf(commits[|commits| - 1]), Moods) == m then 1 else 0
  }

  /** How many commits of the push events fall in mood `m`. */
  function MoodTally(events: seq<Event>, m: Mood): nat {
    if events == [] then 0
    else MoodTally(events[..|events| - 1], m) + Classified(CommitsOf(events[|events| - 1]), m)
  }

  /** How many commits the push events list. */
  function PushedCommits(events: seq<Event>): nat {
    if events == [] then 0
    else PushedCommits(events[..|events| - 1]) + |CommitsOf(events[|events| - 1])|
  }

  /** The five counters of `moodCounts`. */
  datatype Buckets = Buckets(feature: nat, bugfix: nat, refactor: nat, docs: nat, other: nat)

  function Bucket(b: Buckets, m: Mood): nat {
    match m
    case Feature => b.feature
    case Bugfix => b.bugfix
    case Refactor => b.refactor
    case Docs => b.docs
    case Other => b.other
  }

  /** `moodCounts[mood]++`. */
  function Bump(b: Buckets, m: Mood): (r: Buckets)
    ensures Bucket(r, m) == Bucket(b, m) + 1
    ensures forall n :: n != m ==> Bucket(r, n) == Bucket(b, n)
  {
    match m
    case Feature => b.(feature := b.feature + 1)
    case Bugfix => b.(bugfix := b.bugfix + 1)
    case Refactor => b.(refactor := b.refactor + 1)
    case Docs => b.(docs := b.docs + 1)
    case Other => b.(other := b.other + 1)
  }

  function Total(b: Buckets): nat { b.feature + b.bugfix + b.refactor + b.docs + b.other }

  /**
   * `moodCounts`: every listed commit of every push event, counted in the
   * bucket of its mood. The buckets together hold every commit once.
   */
  method MoodCounts(events: seq<Event>) returns (counts: Buckets)
    ensures forall m :: Bucket(counts, m) == MoodTally(events, m)
    ensures Total(counts) == PushedCommits(events)
  {
    counts := Buckets(0, 0, 0, 0, 0);
    for i := 0 to |events|
      invariant forall m :: Bucket(counts, m) == MoodTally(events[..i], m)
    {
      var e := events[i];
      assert events[..i + 1][..i] == events[..i];
      assert events[..i + 1][i] == e;
      if !IsPush(e) {
        continue;
      }
      var commits := if e.commits.Some? then e.commits.value else [];
      assert commits == CommitsOf(e);
      counts := CountCommits(counts, commits);
    }
    assert events[..|events|] == events;
    MoodTotal(events);
  }

  /** The inner `commits.forEach`: each commit bumps the bucket of its mood. */
  method CountCommits(counts: Buckets, commits: seq<Commit>) returns (next: Buckets)
    ensures forall m :: Bucket(next, m) == Bucket(counts, m) + Classified(commits, m)
  {
    next := counts;
    for j := 0 to |commits|
      invariant forall m :: Bucket(next, m) == Bucket(counts, m) + Classified(commits[..j], m)
    {
      var message := Lower(if commits[j].message.Some? then commits[j].message.value else "");
      var mood := ClassifyMessage(message);
      assert commits[..j + 1][..j] == commits[..j];
      assert commits[..j + 1][j] == commits[j];
      next := Bump(next, mood);
    }
    assert commits[..|commits|] == commits;
  }

  /** Every commit is in exactly one bucket. */
  lemma {:induction false} ClassifiedTotal(commits: seq<Commit>)
    ensures Classified(commits, Feature) + Classified(commits, Bugfix) + Classified(commits, Refactor)
      + Classified(commits, Docs) + Classified(commits, Other) == |commits|
  {
    if commits != [] {
      ClassifiedTotal(commits[..|commits| - 1]);
    }
  }

  /** The buckets together hold every commit the push events list. */
  lemma {:induction false} MoodTotal(events: seq<Event>)
    ensures MoodTally(events, Feature) + MoodTally(events, Bugfix) + MoodTally(events, Refactor)
      + MoodTally(events, Docs) + MoodTally(events, Other) == PushedCommits(events)
  {
    if events != [] {
      MoodTotal(events[..|events| - 1]);
      ClassifiedTotal(CommitsOf(events[|events| - 1]));
    }
  }

  // ------------------------------------------------------------ personality

  const NightOwl: string := "\U{1F319} Night Owl"
  const EarlyBird: string := "\U{1F305} Early Bird"
  const DayWorker: string := "☀️ Day Worker"
  const WeekendWarrior: string := "\U{1F3D6}️ Weekend Warrior"
  const WeekdayGrinder: string := "\U{1F4BC} Weekday Grinder"
  const TeamPlayer: string := "\U{1F91D} Team Player"
  const SoloBuilder: string := "\U{1F680} Solo Builder"

  /** The recent events whose local hour is one of `hours`. */
  function HourActivity(events: seq<Event>, since: int, hours: set<nat>): nat {
    if events == [] then 0
    else
      var last := events[|events| - 1];
      HourActivity(events[..|events| - 1], since, hours) + if Recent(last, since) && last.hour in hours then 1 else 0
  }

  /** The recent events whose day of the week is (`inside`) or is not (`!inside`) one of `days`. */
  function DayActivity(events: seq<Event>, since: int, days: set<nat>, inside: bool): nat {
    if events == [] then 0
    else
      var last := events[|events| - 1];
      DayActivity(events[..|events| - 1], since, days, inside) + if Recent(last, since) && (last.weekday in days) == inside then 1 else 0
  }

  /** The recent events of type `kind`. */
  function KindActivity(events: seq<Event>, since: int, kind: string): nat {
    if events == [] then 0
    else
      var last := events[|events| - 1];
      KindActivity(events[..|events| - 1], since, kind) + if Recent(last, since) && last.kind == kind then 1 else 0
  }

  /** The recent events. */
  function RecentCount(events: seq<Event>, since: int): nat {
    if events == [] then 0
    else RecentCount(events[..|events| - 1], since) + if Recent(events[|events| - 1], since) then 1 else 0
  }

  /**
   * The three traits. `weekend > weekday * 0.4` and
   * `pr + issue > push * 0.3` are compared exactly, in integers.
   */
  function Traits(events: seq<Event>, since: int): (r: seq<string>)
    ensures |r| == 3
    ensures r[0] in {NightOwl, EarlyBird, DayWorker}
    ensures r[1] in {WeekendWarrior, WeekdayGrinder}
    ensures r[2] in {TeamPlayer, SoloBuilder}
  {
    var night := HourActivity(events, since, {22, 23, 0, 1});
    var morning := HourActivity(events, since, {6, 7, 8, 9});
    var afternoon := HourActivity(events, since, {14, 15, 16, 17});
    var weekend := DayActivity(events, since, {0, 6}, true);
    var weekday := DayActivity(events, since, {0, 6}, false);
    var pr := KindActivity(events, since, "PullRequestEvent");
    var issue := KindActivity(events, since, "IssuesEvent");
    var push := KindActivity(events, since, "PushEvent");
    [ if night > morning && night > afternoon then NightOwl
      else if morning > night && morning > afternoon then EarlyBird
      else DayWorker,
      if 5 * weekend > 2 * weekday then WeekendWarrior else WeekdayGrinder,
      if 10 * (pr + issue) > 3 * push then TeamPlayer else SoloBuilder ]
  }

  /** `personality`: one trait pushed from each of the three if/else groups. */
  method Personality(events: seq<Event>, since: int) returns (personality: seq<string>)
    ensures personality == Traits(events, since)
  {
    personality := [];
    var night := HourActivity(events, since, {22, 23, 0, 1});
    var morning := HourActivity(events, since, {6, 7, 8, 9});
    var afternoon := HourActivity(events, since, {14, 15, 16, 17});
    if night > morning && night > afternoon {
      personality := personality + [NightOwl];
    } else if morning > night && morning > afternoon {
      personality := personality + [EarlyBird];
    } else {
      personality := personality + [DayWorker];
    }
    var weekend := DayActivity(events, since, {0, 6}, true);
    var weekday := DayActivity(events, since, {0, 6}, false);
    if 5 * weekend > 2 * weekday {
      personality := personality + [WeekendWarrior];
    } else {
      personality := personality + [WeekdayGrinder];
    }
    var pr := KindActivity(events, since, "PullRequestEvent");
    var issue := KindActivity(events, since, "IssuesEvent");
    var push := KindActivity(events, since, "PushEvent");
    if 10 * (pr + issue) > 3 * push {
      personality := personality + [TeamPlayer];
    } else {
      personality := personality + [SoloBuilder];
    }
  }

  /** An hour group's activity is the sum of the activity of its parts: `(hourCounts[22] || 0) + …`. */
  lemma {:induction false} HourActivitySplit(events: seq<Event>, since: int, a: set<nat>, b: set<nat>)
    requires a !! b
    ensures HourActivity(events, since, a + b) == HourActivity(events, since, a) + HourActivity(events, since, b)
  {
    if events != [] {
      HourActivitySplit(events[..|events| - 1], since, a, b);
    }
  }

  /** Weekend and weekday activity together count every recent event once. */
  lemma {:induction false} DaysPartition(events: seq<Event>, since: int, days: set<nat>)
    ensures DayActivity(events, since, days, true) + DayActivity(events, since, days, false) == RecentCount(events, since)
  {
    if events != [] {
      DaysPartition(events[..|events| - 1], since, days);
    }
  }

  /** One more recent weekend event keeps a Weekend Warrior a Weekend Warrior. */
  lemma WeekendStays(events: seq<Event>, since: int, e: Event)
    requires Recent(e, since) && e.weekday in {0, 6}
    requires Traits(events, since)[1] == WeekendWarrior
    ensures Traits(events + [e], since)[1] == WeekendWarrior
  {
    assert (events + [e])[..|events|] == events;
  }
}
