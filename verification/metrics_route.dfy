/**
 * The metrics read route (app/api/metrics/route.ts): the query
 * parameters, the start of the requested time range, the aggregate
 * statistics of the fetched voice-chat records and their grouping into
 * time buckets. The database query is a parameter: what it returns for a
 * request is given. Calendar fields of a record's timestamp (in the
 * server's local time zone) are given with the record.
 */
module MetricsRoute {
  import opened Wrappers
  import opened Strings
  import opened Scan
  import opened Sorting
  import Posts
  import Metrics

  // ---------------------------------------------------------------- query

  /** `parseInt(s, 10)`: leading whitespace, an optional sign, then the longest run of digits; `None` for `NaN`. */
  function ParseInt(s: string): Option<int> {
    ParseSigned(TrimStart(s))
  }

  /** The sign, then the digits. */
  function ParseSigned(t: string): Option<int> {
    if t != [] && t[0] == '-' then
      match LeadingValue(t[1..])
      case None => None
      case Some(v) => Some(-(v as int))
    else if t != [] && t[0] == '+' then
      match LeadingValue(t[1..])
      case None => None
      case Some(v) => Some(v)
    else
      match LeadingValue(t)
      case None => None
      case Some(v) => Some(v)
  }

  /** The value of the run of digits at the front; `None` when there is none. */
  function LeadingValue(u: string): Option<nat> {
    var digits := u[..RunLen(u, IsDigit, 0)];
    if digits == [] then None else Some(DigitsValue(digits))
  }

  /** Digits followed by anything but a digit have their own value. */
  lemma LeadingDigitsValue(d: string, rest: string)
    requires d != [] && forall k :: 0 <= k < |d| ==> IsDigit(d[k])
    requires rest == [] || !IsDigit(rest[0])
    ensures LeadingValue(d + rest) == Some(DigitsValue(d))
  {
    var s := d + rest;
    assert forall k :: 0 <= k < |d| ==> s[k] == d[k];
    RunLenOver(s, IsDigit, 0, |d|);
    assert s[..|d|] == d;
  }

  /** A number written out, with or without a minus sign and followed by anything but a digit, parses to itself. */
  lemma ParseIntOfNumber(n: nat, rest: string)
    requires rest == [] || !IsDigit(rest[0])
    ensures ParseInt(NatToString(n) + rest) == Some(n)
    ensures ParseInt("-" + NatToString(n) + rest) == Some(-(n as int))
  {
    var d := NatToString(n);
    NatToStringRoundTrip(n);
    LeadingDigitsValue(d, rest);
    ParseUnsigned(d + rest, n);
    ParseMinus(d + rest, n);
    assert "-" + d + rest == "-" + (d + rest);
  }

  /** Text starting with a digit parses to the value of its leading digits. */
  lemma ParseUnsigned(s: string, v: nat)
    requires s != [] && IsDigit(s[0])
    requires LeadingValue(s) == Some(v)
    ensures ParseInt(s) == Some(v)
  {
    NothingToTrim(s);
  }

  /** A minus sign before such text negates that value. */
  lemma ParseMinus(s: string, v: nat)
    requires LeadingValue(s) == Some(v)
    ensures ParseInt("-" + s) == Some(-(v as int))
  {
    var m := "-" + s;
    assert m[1..] == s && m[0] == '-';
    NothingToTrim(m);
  }

  lemma NothingToTrim(s: string)
    requires s != [] && !IsSpace(s[0])
    ensures TrimStart(s) == s
  {
  }

  /** A text that does not start with a sign or a digit (after whitespace) is not a number. */
  lemma ParseIntRejects(s: string)
    requires var t := TrimStart(s); t == [] || (!IsDigit(t[0]) && t[0] != '+' && t[0] != '-')
    ensures ParseInt(s).None?
  {
    var t := TrimStart(s);
    if t != [] {
      assert !IsDigit(t[0]);
    }
  }

  /** The parameters the route reads; `limit` is `None` when it does not parse. */
  datatype Query = Query(timeRange: string, groupBy: string, limit: Option<int>)

  /** `searchParams.get(name) || fallback`: a missing or empty parameter takes the default. */
  function ParamOr(param: Option<string>, fallback: string): string {
    if param.Some? && param.value != [] then param.value else fallback
  }

  /** The query of a request with parameters `range`, `groupBy` and `limit`. */
  function ParseQuery(range: Option<string>, groupBy: Option<string>, limit: Option<string>): Query {
    Query(ParamOr(range, "24h"), ParamOr(groupBy, "hour"), ParseInt(ParamOr(limit, "100")))
  }

  /** Missing or empty parameters default to the last 24 hours, hourly buckets and 100 records; given ones are kept. */
  lemma QueryDefaults(range: Option<string>, groupBy: Option<string>, limit: Option<string>)
    ensures var q := ParseQuery(range, groupBy, limit);
      (q.timeRange == if range.Some? && range.value != [] then range.value else "24h") &&
      (q.groupBy == if groupBy.Some? && groupBy.value != [] then groupBy.value else "hour") &&
      (limit.None? || limit.value == [] ==> q.limit == Some(100))
  {
    assert NatToString(100) == "100" by {
      assert NatToString(10) == NatToString(1) + [DigitChar(0)];
    }
    ParseIntOfNumber(100, []);
    assert "100" + [] == "100";
  }

  // ---------------------------------------------------------------- time range

  const HourMs: nat := 60 * 60 * 1000
  const DayMs: nat := 24 * HourMs

  /** `getTimeRangeStart` at time `now` (in milliseconds); `None` for `null`. */
  function TimeRangeStart(range: string, now: int): (r: Option<int>)
    ensures r.None? <==> range == "all"
    ensures r.Some? ==> r.value < now
  {
    if range == "1h" then Some(now - HourMs)
    else if range == "24h" then Some(now - DayMs)
    else if range == "7d" then Some(now - 7 * DayMs)
    else if range == "30d" then Some(now - 30 * DayMs)
    else if range == "all" then None
    else Some(now - DayMs)
  }

  /** The four ranges reach back one hour, a day, a week and 30 days; any other name than `all` means a day. */
  lemma RangeStarts(range: string, now: int)
    ensures TimeRangeStart("1h", now) == Some(now - 3600000)
    ensures TimeRangeStart("24h", now) == Some(now - 86400000)
    ensures TimeRangeStart("7d", now) == Some(now - 604800000)
    ensures TimeRangeStart("30d", now) == Some(now - 2592000000)
    ensures range !in {"1h", "24h", "7d", "30d", "all"} ==> TimeRangeStart(range, now) == TimeRangeStart("24h", now)
  {
  }

  /** A longer range starts earlier. */
  lemma RangesNested(now: int)
    ensures TimeRangeStart("30d", now).value < TimeRangeStart("7d", now).value
      < TimeRangeStart("24h", now).value < TimeRangeStart("1h", now).value < now
  {
  }

  /** The database request: at most `limit` records, those at or after `since` when it is set. */
  datatype Request = Request(limit: Option<int>, since: Option<int>)

  function RequestFor(q: Query, now: int): Request {
    Request(q.limit, TimeRangeStart(q.timeRange, now))
  }

  // ---------------------------------------------------------------- records and keys

  /** The local calendar fields of a timestamp: `getFullYear`, `getMonth() + 1`, `getDate`, `getHours`. */
  datatype LocalTime = LocalTime(year: nat, month: nat, day: nat, hour: nat)

  type Clock = t: LocalTime | 1 <= t.month <= 12 && 1 <= t.day <= 31 && t.hour < 24
    witness LocalTime(1970, 1, 1, 0)

  /**
   * The fields of a `voice_metrics` record the statistics read; `weekStart`
   * is the UTC date (`YYYY-MM-DD`) of the Sunday starting its local week.
   */
  datatype MetricsRecord = MetricsRecord(
    time: Clock,
    weekStart: string,
    sttDuration: real,
    ragSearchDuration: real,
    llmDuration: real,
    ttsDuration: real,
    totalDuration: real,
    responseLength: real,
    responseSentences: real,
    citationsRemoved: real,
    fillersAdded: real,
    documentsUsed: real,
    costTotal: real,
    hasError: bool)

  /** What a key has after the year: `-MM-DDTHH:00:00Z`. */
  function KeyTail(month: string, day: string, hour: string): string {
    "-" + month + "-" + day + "T" + hour + ":00:00Z"
  }

  /** `${year}-${month}-${day}T${hour}:00:00Z`. */
  function HourKey(t: Clock): string {
    NatToString(t.year) + KeyTail(Pad2(t.month), Pad2(t.day), Pad2(t.hour))
  }

  /** `${year}-${month}-${day}T00:00:00Z`. */
  function DayKey(t: Clock): string {
    NatToString(t.year) + KeyTail(Pad2(t.month), Pad2(t.day), "00")
  }

  /** `getTimeKey`: the day key, the week key, or the hour key for `hour` and any other grouping. */
  function TimeKey(r: MetricsRecord, groupBy: string): string {
    if groupBy == "day" then DayKey(r.time)
    else if groupBy == "week" then r.weekStart + "T00:00:00Z"
    else HourKey(r.time)
  }

  /** Where the two-digit fields sit in the tail. */
  lemma TailLayout(month: string, day: string, hour: string)
    requires |month| == 2 && |day| == 2 && |hour| == 2
    ensures |KeyTail(month, day, hour)| == 16
    ensures KeyTail(month, day, hour)[1..3] == month
    ensures KeyTail(month, day, hour)[4..6] == day
    ensures KeyTail(month, day, hour)[7..9] == hour
  {
  }

  /** Two keys agree exactly when their years and their two-digit fields agree. */
  lemma KeyParts(y1: nat, m1: string, d1: string, h1: string, y2: nat, m2: string, d2: string, h2: string)
    requires |m1| == 2 && |d1| == 2 && |h1| == 2 && |m2| == 2 && |d2| == 2 && |h2| == 2
    requires NatToString(y1) + KeyTail(m1, d1, h1) == NatToString(y2) + KeyTail(m2, d2, h2)
    ensures y1 == y2 && m1 == m2 && d1 == d2 && h1 == h2
  {
    var a, b := KeyTail(m1, d1, h1), KeyTail(m2, d2, h2);
    TailLayout(m1, d1, h1);
    TailLayout(m2, d2, h2);
    var k := NatToString(y1) + a;
    assert NatToString(y1) == k[..|k| - 16] == NatToString(y2);
    assert a == k[|k| - 16..] == b;
    NatToStringInjective(y1, y2);
  }

  /** Distinct hours have distinct hour keys. */
  lemma HourKeyInjective(a: Clock, b: Clock)
    ensures HourKey(a) == HourKey(b) <==> a == b
  {
    if HourKey(a) == HourKey(b) {
      KeyParts(a.year, Pad2(a.month), Pad2(a.day), Pad2(a.hour), b.year, Pad2(b.month), Pad2(b.day), Pad2(b.hour));
    }
  }

  /** Two times share a day key exactly when they fall on the same date. */
  lemma DayKeySameDate(a: Clock, b: Clock)
    ensures DayKey(a) == DayKey(b) <==> a.year == b.year && a.month == b.month && a.day == b.day
  {
    if DayKey(a) == DayKey(b) {
      KeyParts(a.year, Pad2(a.month), Pad2(a.day), "00", b.year, Pad2(b.month), Pad2(b.day), "00");
    }
  }

  /** An hour key has the four-digit year's 20 characters, the day key is the hour key of midnight, and both end in `:00:00Z`. */
  lemma KeyShapes(t: Clock)
    ensures |HourKey(t)| == |NatToString(t.year)| + 16
    ensures DayKey(t) == HourKey(t.(hour := 0))
    ensures EndsWith(HourKey(t), ":00:00Z") && EndsWith(DayKey(t), "T00:00:00Z")
  {
    TailLayout(Pad2(t.month), Pad2(t.day), Pad2(t.hour));
    assert Pad2(0) == "00";
    var h, d := HourKey(t), DayKey(t);
    assert h[|h| - 7..] == ":00:00Z";
    assert d[|d| - 10..] == "T00:00:00Z";
  }

  // ---------------------------------------------------------------- sum, avg, percentile

  /** `sum` splits over concatenation: on exact numbers the order of the fold does not matter. */
  lemma {:induction false} SumConcat(a: seq<real>, b: seq<real>)
    ensures Metrics.SumOf(a + b) == Metrics.SumOf(a) + Metrics.SumOf(b)
    decreases |b|
  {
    if b != [] {
      var b' := b[..|b| - 1];
      assert (a + b)[..|a + b| - 1] == a + b';
      assert (a + b)[|a + b| - 1] == b[|b| - 1];
      SumConcat(a, b');
    } else {
      assert a + b == a;
    }
  }

  /** `avg`: 0 for no numbers, otherwise the mean. */
  function Avg(xs: seq<real>): real {
    if xs == [] then 0.0 else Metrics.SumOf(xs) / (|xs| as real)
  }

  /** The mean lies between any lower and upper bound of the numbers. */
  lemma AvgBounds(xs: seq<real>, lo: real, hi: real)
    requires xs != []
    requires forall k :: 0 <= k < |xs| ==> lo <= xs[k] <= hi
    ensures lo <= Avg(xs) <= hi
  {
    Metrics.SumBounds(xs, lo, hi);
  }

  function Ceil(x: real): int {
    -((-x).Floor)
  }

  lemma CeilBounds(x: real)
    ensures x <= Ceil(x) as real < x + 1.0
  {
  }

  /** The position `percentile` reads: `Math.max(0, Math.ceil(n * p) - 1)`. */
  function RankIndex(n: nat, p: real): nat {
    var i := Ceil(n as real * p) - 1;
    if i < 0 then 0 else i
  }

  /** Scaling by a positive number keeps the sign. */
  lemma Scale(a: real, b: real)
    requires a > 0.0
    ensures b < 0.0 ==> a * b < 0.0
    ensures b <= 0.0 ==> a * b <= 0.0
    ensures b >= 0.0 ==> a * b >= 0.0
  {
  }

  /** A fraction up to 1 reads a position inside the list, a larger one a position past it, and one up to 0 the first. */
  lemma RankBounds(n: nat, p: real)
    requires 0 < n
    ensures p <= 1.0 <==> RankIndex(n, p) < n
    ensures p <= 0.0 ==> RankIndex(n, p) == 0
  {
    var x := n as real * p;
    Scale(n as real, p);
    Scale(n as real, 1.0 - p);
    assert n as real - x == n as real * (1.0 - p);
    CeilBounds(x);
  }

  /** `percentile`: 0 for no numbers, otherwise the element at the nearest rank; `None` for `undefined`. */
  function Percentile(sorted: seq<real>, p: real): (r: Option<real>)
    ensures sorted == [] ==> r == Some(0.0)
    ensures sorted != [] && p <= 1.0 ==> r.Some? && r.value in sorted
    ensures sorted != [] && p > 1.0 ==> r.None?
    ensures sorted != [] && p <= 0.0 ==> r == Some(sorted[0])
  {
    if sorted == [] then Some(0.0)
    else
      RankBounds(|sorted|, p);
      var i := RankIndex(|sorted|, p);
      if i < |sorted| then Some(sorted[i]) else None
  }

  function RealLe(a: real, b: real): bool { a <= b }

  lemma RealLeIsPreorder()
    ensures TotalPreorder(RealLe)
  {
  }

  /**
   * On ascending numbers the percentile is the nearest rank: every number
   * among the first `n * p` is at most it, and it is at most every number
   * from rank `n * p` on.
   */
  lemma NearestRank(sorted: seq<real>, p: real)
    requires SortedBy(sorted, RealLe)
    requires sorted != [] && 0.0 < p <= 1.0
    ensures Percentile(sorted, p).Some?
    ensures forall k :: 0 <= k < |sorted| && (k as real) < (|sorted| as real) * p ==> sorted[k] <= Percentile(sorted, p).value
    ensures forall k :: 0 <= k < |sorted| && ((k + 1) as real) >= (|sorted| as real) * p ==> Percentile(sorted, p).value <= sorted[k]
  {
    var x := |sorted| as real * p;
    CeilBounds(x);
    var i := RankIndex(|sorted|, p);
    assert Percentile(sorted, p) == Some(sorted[i]);
    forall k | 0 <= k < |sorted| && (k as real) < x
      ensures sorted[k] <= sorted[i]
    {
      assert k <= i;
      if k < i {
        assert RealLe(sorted[k], sorted[i]);
      }
    }
    forall k | 0 <= k < |sorted| && ((k + 1) as real) >= x
      ensures sorted[i] <= sorted[k]
    {
      assert i <= k;
      if i < k {
        assert RealLe(sorted[i], sorted[k]);
      }
    }
  }

  /** A higher fraction never reads an earlier position. */
  lemma RankMonotone(n: nat, p: real, q: real)
    requires p <= q
    ensures RankIndex(n, p) <= RankIndex(n, q)
  {
    var x, y := n as real * p, n as real * q;
    assert y - x == n as real * (q - p);
    CeilMonotone(x, y);
  }

  lemma CeilMonotone(x: real, y: real)
    requires x <= y
    ensures Ceil(x) <= Ceil(y)
  {
    CeilBounds(x);
    CeilBounds(y);
  }

  /** A higher percentile of ascending numbers is never smaller. */
  lemma PercentileMonotone(sorted: seq<real>, p: real, q: real)
    requires SortedBy(sorted, RealLe)
    requires sorted != [] && p <= q <= 1.0
    ensures Percentile(sorted, p).value <= Percentile(sorted, q).value
  {
    RankMonotone(|sorted|, p, q);
    RankBounds(|sorted|, q);
    var i, j := RankIndex(|sorted|, p), RankIndex(|sorted|, q);
    assert Percentile(sorted, p) == Some(sorted[i]) && Percentile(sorted, q) == Some(sorted[j]);
    if i < j {
      assert RealLe(sorted[i], sorted[j]);
    }
  }

  // ---------------------------------------------------------------- grouping

  /** `data.map(f)`. */
  function Column(data: seq<MetricsRecord>, f: MetricsRecord -> real): (r: seq<real>)
    ensures |r| == |data|
    ensures forall k :: 0 <= k < |r| ==> r[k] == f(data[k])
  {
    seq(|data|, k requires 0 <= k < |data| => f(data[k]))
  }

  function Durations(data: seq<MetricsRecord>): seq<real> {
    Column(data, (r: MetricsRecord) => r.totalDuration)
  }

  function Costs(data: seq<MetricsRecord>): seq<real> {
    Column(data, (r: MetricsRecord) => r.costTotal)
  }

  /** `records.filter(r => r.has_error).length`. */
  function ErrorCount(records: seq<MetricsRecord>): (n: nat)
    ensures n <= |records|
  {
    if records == [] then 0 else (if records[0].hasError then 1 else 0) + ErrorCount(records[1..])
  }

  /** One entry of `byTime`. */
  datatype Bucket = Bucket(timestamp: string, count: nat, avgDuration: real, errorCount: nat)

  function BucketFor(key: string, records: seq<MetricsRecord>): (b: Bucket)
    ensures b.timestamp == key && b.count == |records| && b.errorCount <= b.count
  {
    Bucket(key, |records|, Avg(Durations(records)), ErrorCount(records))
  }

  /** The key of every record, in input order. */
  function KeysOf(data: seq<MetricsRecord>, groupBy: string): (r: seq<string>)
    ensures |r| == |data|
    ensures forall k :: 0 <= k < |r| ==> r[k] == TimeKey(data[k], groupBy)
  {
    if data == [] then [] else KeysOf(data[..|data| - 1], groupBy) + [TimeKey(data[|data| - 1], groupBy)]
  }

  /** The records of `data` with key `key`, in input order. */
  function WithKey(data: seq<MetricsRecord>, groupBy: string, key: string): (r: seq<MetricsRecord>)
    ensures forall x :: x in r <==> x in data && TimeKey(x, groupBy) == key
  {
    if data == [] then []
    else
      var init, last := data[..|data| - 1], data[|data| - 1];
      assert data == init + [last];
      WithKey(init, groupBy, key) + (if TimeKey(last, groupBy) == key then [last] else [])
  }

  /** The `Map` that `groupByTime` fills: its keys in insertion order, and the records of each. */
  datatype Grouping = Grouping(order: seq<string>, groups: map<string, seq<MetricsRecord>>)

  /** The records stored for a key; none for a key not stored. */
  function Lookup(groups: map<string, seq<MetricsRecord>>, key: string): seq<MetricsRecord> {
    if key in groups then groups[key] else []
  }

  /** The map after the records of `data` were added in order. */
  function GroupsOf(data: seq<MetricsRecord>, groupBy: string): Grouping {
    if data == [] then Grouping([], map[])
    else
      var g := GroupsOf(data[..|data| - 1], groupBy);
      var r := data[|data| - 1];
      var key := TimeKey(r, groupBy);
      if key in g.groups then Grouping(g.order, g.groups[key := g.groups[key] + [r]])
      else Grouping(g.order + [key], g.groups[key := [r]])
  }

  predicate Distinct(s: seq<string>) {
    forall i, j :: 0 <= i < j < |s| ==> s[i] != s[j]
  }

  /**
   * The map holds one entry per distinct key of the records, listed once
   * each in insertion order, and the entry of a key holds exactly the
   * records with that key, in input order.
   */
  lemma {:induction false} GroupsOfShape(data: seq<MetricsRecord>, groupBy: string)
    ensures var g := GroupsOf(data, groupBy);
      Distinct(g.order) &&
      (forall k :: k in g.groups <==> k in g.order) &&
      (forall k :: k in g.order <==> k in KeysOf(data, groupBy)) &&
      (forall k :: k in g.groups ==> g.groups[k] == WithKey(data, groupBy, k))
  {
    if data != [] {
      var init, r := data[..|data| - 1], data[|data| - 1];
      GroupsOfShape(init, groupBy);
      var g := GroupsOf(init, groupBy);
      var key := TimeKey(r, groupBy);
      assert KeysOf(data, groupBy) == KeysOf(init, groupBy) + [key];
      if key !in g.groups {
        NoRecordsWithKey(init, groupBy, key);
        assert key !in KeysOf(init, groupBy);
      }
      var g' := GroupsOf(data, groupBy);
      forall k | k in g'.groups
        ensures g'.groups[k] == WithKey(data, groupBy, k)
      {
        assert WithKey(data, groupBy, k) == WithKey(init, groupBy, k) + (if key == k then [r] else []);
      }
    }
  }

  /** No record has a key that no record's key equals. */
  lemma NoRecordsWithKey(data: seq<MetricsRecord>, groupBy: string, key: string)
    requires key !in KeysOf(data, groupBy)
    ensures WithKey(data, groupBy, key) == []
  {
    var w := WithKey(data, groupBy, key);
    if w != [] {
      assert false;
    }
  }

  /** The buckets of the keys `order`, before the sort. */
  function BucketsIn(order: seq<string>, groups: map<string, seq<MetricsRecord>>): (r: seq<Bucket>)
    ensures |r| == |order|
    ensures forall k :: 0 <= k < |r| ==> r[k] == BucketFor(order[k], Lookup(groups, order[k]))
  {
    if order == [] then []
    else
      var key := order[|order| - 1];
      BucketsIn(order[..|order| - 1], groups) + [BucketFor(key, Lookup(groups, key))]
  }

  /** The counts of the buckets added up. */
  function CountSum(buckets: seq<Bucket>): nat {
    if buckets == [] then 0 else CountSum(buckets[..|buckets| - 1]) + buckets[|buckets| - 1].count
  }

  lemma {:induction false} CountSumConcat(a: seq<Bucket>, b: seq<Bucket>)
    ensures CountSum(a + b) == CountSum(a) + CountSum(b)
    decreases |b|
  {
    if b != [] {
      var b' := b[..|b| - 1];
      assert (a + b)[..|a + b| - 1] == a + b';
      assert (a + b)[|a + b| - 1] == b[|b| - 1];
      CountSumConcat(a, b');
    } else {
      assert a + b == a;
    }
  }

  /** Reordering the buckets keeps the total count. */
  lemma {:induction false} CountSumPermuted(a: seq<Bucket>, b: seq<Bucket>)
    requires multiset(a) == multiset(b)
    ensures CountSum(a) == CountSum(b)
    decreases |a|
  {
    if a == [] {
      assert |b| == |multiset(b)| == 0;
    } else {
      var a', x := a[..|a| - 1], a[|a| - 1];
      assert a == a' + [x];
      assert multiset(a') == multiset(a) - multiset{x};
      assert x in multiset(b);
      var j :| 0 <= j < |b| && b[j] == x;
      var b' := b[..j] + b[j + 1..];
      BucketRemoved(b, j);
      CountSumPermuted(a', b');
    }
  }

  /** Taking the bucket at `j` out of `b` takes it out of the bag and its records out of the total. */
  lemma BucketRemoved(b: seq<Bucket>, j: nat)
    requires j < |b|
    ensures multiset(b[..j] + b[j + 1..]) == multiset(b) - multiset{b[j]}
    ensures CountSum(b) == CountSum(b[..j] + b[j + 1..]) + b[j].count
  {
    AroundIndex(b, j);
    MultisetRemoved(b, j);
    CountSumMiddle(b[..j], b[j], b[j + 1..]);
  }

  lemma CountSumMiddle(p: seq<Bucket>, x: Bucket, q: seq<Bucket>)
    ensures CountSum(p + [x] + q) == CountSum(p + q) + x.count
  {
    CountSumConcat(p, q);
    CountSumConcat(p + [x], q);
    CountSumConcat(p, [x]);
    assert CountSum([x]) == x.count by {
      assert [x][..0] == [];
    }
  }

  lemma MultisetRemoved<T>(b: seq<T>, j: nat)
    requires j < |b|
    ensures multiset(b[..j] + b[j + 1..]) == multiset(b) - multiset{b[j]}
  {
    AroundIndex(b, j);
    assert multiset(b) == multiset(b[..j]) + multiset{b[j]} + multiset(b[j + 1..]);
  }

  /** One more key adds the number of its records. */
  lemma CountSumSnoc(init: seq<string>, last: string, groups: map<string, seq<MetricsRecord>>)
    ensures CountSum(BucketsIn(init + [last], groups)) == CountSum(BucketsIn(init, groups)) + |Lookup(groups, last)|
  {
    var a := BucketsIn(init + [last], groups);
    assert (init + [last])[..|init|] == init;
    assert a[..|a| - 1] == BucketsIn(init, groups);
  }

  /** Replacing the records of one key changes the total count by the difference, when the key is listed. */
  lemma {:induction false} CountSumUpdate(order: seq<string>, groups: map<string, seq<MetricsRecord>>, key: string, v: seq<MetricsRecord>)
    requires Distinct(order)
    ensures CountSum(BucketsIn(order, groups[key := v])) ==
      CountSum(BucketsIn(order, groups)) + (if key in order then |v| - |Lookup(groups, key)| else 0)
  {
    if order != [] {
      var init, last := order[..|order| - 1], order[|order| - 1];
      assert order == init + [last];
      CountSumUpdate(init, groups, key, v);
      var updated := groups[key := v];
      CountSumSnoc(init, last, updated);
      CountSumSnoc(init, last, groups);
      assert key in order <==> key in init || key == last;
      if last == key {
        assert key !in init;
      } else {
        assert Lookup(updated, last) == Lookup(groups, last);
      }
    }
  }

  /** The bucket counts add up to the number of records. */
  lemma {:induction false} GroupsOfCount(data: seq<MetricsRecord>, groupBy: string)
    ensures var g := GroupsOf(data, groupBy); CountSum(BucketsIn(g.order, g.groups)) == |data|
  {
    if data != [] {
      var init, r := data[..|data| - 1], data[|data| - 1];
      GroupsOfCount(init, groupBy);
      GroupsOfShape(init, groupBy);
      var g := GroupsOf(init, groupBy);
      var key := TimeKey(r, groupBy);
      if key in g.groups {
        CountSumUpdate(g.order, g.groups, key, g.groups[key] + [r]);
      } else {
        CountSumUpdate(g.order, g.groups, key, [r]);
        var order' := g.order + [key];
        var u := BucketsIn(order', g.groups[key := [r]]);
        assert u[..|u| - 1] == BucketsIn(g.order, g.groups[key := [r]]);
      }
    }
  }

  /** `a.timestamp.localeCompare(b.timestamp) <= 0`, with code-unit order for the locale's. */
  function ByTimestamp(a: Bucket, b: Bucket): bool {
    StringLe(a.timestamp, b.timestamp)
  }

  lemma ByTimestampIsPreorder()
    ensures TotalPreorder(ByTimestamp)
  {
    Posts.StringLeIsPreorder();
    forall a: Bucket, b: Bucket
      ensures ByTimestamp(a, b) || ByTimestamp(b, a)
    {
      assert StringLe(a.timestamp, b.timestamp) || StringLe(b.timestamp, a.timestamp);
    }
    forall a: Bucket, b: Bucket, c: Bucket | ByTimestamp(a, b) && ByTimestamp(b, c)
      ensures ByTimestamp(a, c)
    {
      assert StringLe(a.timestamp, b.timestamp) && StringLe(b.timestamp, c.timestamp);
    }
  }

  /** The result of `groupByTime`. */
  function ByTime(data: seq<MetricsRecord>, groupBy: string): seq<Bucket> {
    var g := GroupsOf(data, groupBy);
    SortBy(BucketsIn(g.order, g.groups), ByTimestamp)
  }

  /** `groupByTime`: the `forEach` over the records fills the map; its entries become buckets sorted by key. */
  method GroupByTime(data: seq<MetricsRecord>, groupBy: string) returns (byTime: seq<Bucket>)
    ensures byTime == ByTime(data, groupBy)
  {
    var order: seq<string> := [];
    var groups: map<string, seq<MetricsRecord>> := map[];
    for i := 0 to |data|
      invariant Grouping(order, groups) == GroupsOf(data[..i], groupBy)
    {
      var key := TimeKey(data[i], groupBy);
      assert data[..i + 1][..i] == data[..i] && data[..i + 1][i] == data[i];
      if key !in groups {
        groups := groups[key := []];
        order := order + [key];
        assert groups[key] + [data[i]] == [data[i]];
      }
      groups := groups[key := groups[key] + [data[i]]];
    }
    assert data[..|data|] == data;
    byTime := SortBy(BucketsIn(order, groups), ByTimestamp);
  }

  /** A reordering of buckets with distinct timestamps has distinct timestamps. */
  lemma DistinctTimestamps(a: seq<Bucket>, b: seq<Bucket>)
    requires multiset(a) == multiset(b)
    requires Distinct(Timestamps(a))
    ensures Distinct(Timestamps(b))
  {
    Posts.DistinctPermutation(a, b);
    forall i, j | 0 <= i < j < |b|
      ensures b[i].timestamp != b[j].timestamp
    {
      assert b[i] in multiset(a) && b[j] in multiset(a);
      var i' :| 0 <= i' < |a| && a[i'] == b[i];
      var j' :| 0 <= j' < |a| && a[j'] == b[j];
      assert Timestamps(a)[i'] == b[i].timestamp && Timestamps(a)[j'] == b[j].timestamp;
    }
  }

  /**
   * What `groupByTime` promises of a list of buckets for `data`: one bucket
   * per distinct key of the records, and each bucket counts the records
   * with its key, at least one, with at most that many errors.
   */
  ghost predicate OneBucketPerKey(b: seq<Bucket>, data: seq<MetricsRecord>, groupBy: string) {
    Distinct(Timestamps(b)) &&
    (forall key :: key in Timestamps(b) <==> key in KeysOf(data, groupBy)) &&
    (forall i :: 0 <= i < |b| ==>
      b[i].count == |WithKey(data, groupBy, b[i].timestamp)| && 1 <= b[i].count && b[i].errorCount <= b[i].count)
  }

  /** The timestamps of the buckets, in order. */
  function Timestamps(b: seq<Bucket>): (r: seq<string>)
    ensures |r| == |b|
    ensures forall i :: 0 <= i < |b| ==> r[i] == b[i].timestamp
  {
    seq(|b|, i requires 0 <= i < |b| => b[i].timestamp)
  }

  /** A key that some record has is listed in the map. */
  lemma ListedKey(data: seq<MetricsRecord>, groupBy: string, key: string)
    ensures key in GroupsOf(data, groupBy).order <==> key in KeysOf(data, groupBy)
    ensures key in GroupsOf(data, groupBy).order ==> key in GroupsOf(data, groupBy).groups
    ensures key in GroupsOf(data, groupBy).groups ==> GroupsOf(data, groupBy).groups[key] == WithKey(data, groupBy, key)
  {
    GroupsOfShape(data, groupBy);
  }

  /** A key that some record has selects at least that record. */
  lemma KeyHasRecords(data: seq<MetricsRecord>, groupBy: string, key: string)
    requires key in KeysOf(data, groupBy)
    ensures 1 <= |WithKey(data, groupBy, key)|
  {
    var k :| 0 <= k < |data| && KeysOf(data, groupBy)[k] == key;
    assert data[k] in data;
    assert data[k] in WithKey(data, groupBy, key);
  }

  /** The buckets of the filled map, before the sort, are one per key. */
  lemma BucketsInSpec(data: seq<MetricsRecord>, groupBy: string)
    ensures var g := GroupsOf(data, groupBy); OneBucketPerKey(BucketsIn(g.order, g.groups), data, groupBy)
  {
    var g := GroupsOf(data, groupBy);
    GroupsOfShape(data, groupBy);
    BucketsFromMap(g.order, g.groups, data, groupBy);
  }

  /** A map holding the records of each key once, in a list of distinct keys, gives one bucket per key. */
  lemma BucketsFromMap(order: seq<string>, groups: map<string, seq<MetricsRecord>>, data: seq<MetricsRecord>, groupBy: string)
    requires Distinct(order)
    requires forall k :: k in order <==> k in KeysOf(data, groupBy)
    requires forall k :: k in order ==> k in groups && groups[k] == WithKey(data, groupBy, k)
    ensures OneBucketPerKey(BucketsIn(order, groups), data, groupBy)
  {
    var u := BucketsIn(order, groups);
    assert Timestamps(u) == order;
    BucketsCount(order, groups, data, groupBy);
  }

  lemma BucketsCount(order: seq<string>, groups: map<string, seq<MetricsRecord>>, data: seq<MetricsRecord>, groupBy: string)
    requires forall k :: k in order ==> k in KeysOf(data, groupBy)
    requires forall k :: k in order ==> k in groups && groups[k] == WithKey(data, groupBy, k)
    ensures var u := BucketsIn(order, groups);
      forall i :: 0 <= i < |u| ==>
        u[i].count == |WithKey(data, groupBy, u[i].timestamp)| && 1 <= u[i].count && u[i].errorCount <= u[i].count
  {
    var u := BucketsIn(order, groups);
    forall i | 0 <= i < |u|
      ensures u[i].count == |WithKey(data, groupBy, u[i].timestamp)| && 1 <= u[i].count
    {
      var key := order[i];
      assert key in order;
      KeyHasRecords(data, groupBy, key);
      assert u[i] == BucketFor(key, groups[key]);
    }
  }

  /** Reordering the buckets keeps them one per key. */
  lemma OneBucketPerKeyPermuted(a: seq<Bucket>, b: seq<Bucket>, data: seq<MetricsRecord>, groupBy: string)
    requires multiset(a) == multiset(b)
    requires OneBucketPerKey(a, data, groupBy)
    ensures OneBucketPerKey(b, data, groupBy)
  {
    DistinctTimestamps(a, b);
    SameTimestamps(a, b);
    SameTimestamps(b, a);
    forall i | 0 <= i < |b|
      ensures b[i].count == |WithKey(data, groupBy, b[i].timestamp)| && 1 <= b[i].count && b[i].errorCount <= b[i].count
    {
      assert b[i] in multiset(a);
      var j :| 0 <= j < |a| && a[j] == b[i];
    }
  }

  /** A reordering of buckets has the same timestamps. */
  lemma SameTimestamps(a: seq<Bucket>, b: seq<Bucket>)
    requires multiset(a) == multiset(b)
    ensures forall key :: key in Timestamps(a) ==> key in Timestamps(b)
  {
    forall key | key in Timestamps(a)
      ensures key in Timestamps(b)
    {
      var j :| 0 <= j < |a| && Timestamps(a)[j] == key;
      assert a[j] in multiset(b);
      var i :| 0 <= i < |b| && b[i] == a[j];
      assert Timestamps(b)[i] == key;
    }
  }

  /**
   * `groupByTime` gives one bucket per distinct key of the records, in
   * ascending key order, and the counts add up to the number of records.
   */
  lemma ByTimeSpec(data: seq<MetricsRecord>, groupBy: string)
    ensures SortedBy(ByTime(data, groupBy), ByTimestamp)
    ensures OneBucketPerKey(ByTime(data, groupBy), data, groupBy)
    ensures CountSum(ByTime(data, groupBy)) == |data|
  {
    var g := GroupsOf(data, groupBy);
    var u := BucketsIn(g.order, g.groups);
    ByTimestampIsPreorder();
    SortBySorted(u, ByTimestamp);
    BucketsInSpec(data, groupBy);
    OneBucketPerKeyPermuted(u, ByTime(data, groupBy), data, groupBy);
    GroupsOfCount(data, groupBy);
    CountSumPermuted(u, ByTime(data, groupBy));
  }


  // ---------------------------------------------------------------- statistics

  datatype Performance = Performance(stt: real, rag: real, llm: real, tts: real, total: real)

  datatype Quality = Quality(responseLength: real, responseSentences: real, citationsRemoved: real, fillersAdded: real, documentsUsed: real)

  /** `MetricsStats`; a percentile is `None` where the route would give `undefined`. */
  datatype Stats = Stats(
    total: nat,
    avgPerformance: Performance,
    p50Total: Option<real>,
    p95Total: Option<real>,
    avgQuality: Quality,
    totalCost: real,
    avgCostPerSession: real,
    errorRate: real,
    byTime: seq<Bucket>)

  /** `getEmptyStats`. */
  const EmptyStats := Stats(
    0, Performance(0.0, 0.0, 0.0, 0.0, 0.0), Some(0.0), Some(0.0),
    Quality(0.0, 0.0, 0.0, 0.0, 0.0), 0.0, 0.0, 0.0, [])

  /** `calculateStats`. */
  function CalculateStats(data: seq<MetricsRecord>, groupBy: string): (s: Stats)
    ensures s.total == |data|
    ensures data == [] ==> s == EmptyStats
  {
    if data == [] then EmptyStats
    else
      var n := |data| as real;
      var sorted := SortBy(Durations(data), RealLe);
      var totalCost := Metrics.SumOf(Costs(data));
      Stats(
        |data|,
        Performance(
          Avg(Column(data, (r: MetricsRecord) => r.sttDuration)),
          Avg(Column(data, (r: MetricsRecord) => r.ragSearchDuration)),
          Avg(Column(data, (r: MetricsRecord) => r.llmDuration)),
          Avg(Column(data, (r: MetricsRecord) => r.ttsDuration)),
          Avg(Durations(data))),
        Percentile(sorted, 0.5),
        Percentile(sorted, 0.95),
        Quality(
          Avg(Column(data, (r: MetricsRecord) => r.responseLength)),
          Avg(Column(data, (r: MetricsRecord) => r.responseSentences)),
          Avg(Column(data, (r: MetricsRecord) => r.citationsRemoved)),
          Avg(Column(data, (r: MetricsRecord) => r.fillersAdded)),
          Avg(Column(data, (r: MetricsRecord) => r.documentsUsed))),
        totalCost,
        totalCost / n,
        ErrorCount(data) as real / n,
        ByTime(data, groupBy))
  }

  /** The median and the 95th percentile of numbers are two of them, the median not above the other. */
  lemma MedianBelowP95(xs: seq<real>)
    requires xs != []
    ensures var sorted := SortBy(xs, RealLe);
      Percentile(sorted, 0.5).Some? && Percentile(sorted, 0.95).Some? &&
      Percentile(sorted, 0.5).value <= Percentile(sorted, 0.95).value &&
      Percentile(sorted, 0.5).value in xs && Percentile(sorted, 0.95).value in xs
  {
    var sorted := SortBy(xs, RealLe);
    RealLeIsPreorder();
    SortBySorted(xs, RealLe);
    PercentileMonotone(sorted, 0.5, 0.95);
    assert Percentile(sorted, 0.5).value in multiset(xs);
    assert Percentile(sorted, 0.95).value in multiset(xs);
  }

  lemma Fraction(k: nat, n: nat)
    requires 0 < n && k <= n
    ensures 0.0 <= (k as real) / (n as real) <= 1.0
  {
  }

  /**
   * For records, the median and the 95th percentile are total durations of
   * records, the median is at most the 95th percentile, and the error rate
   * is a fraction.
   */
  lemma StatsSpec(data: seq<MetricsRecord>, groupBy: string)
    requires data != []
    ensures var s := CalculateStats(data, groupBy);
      s.p50Total.Some? && s.p95Total.Some? && s.p50Total.value <= s.p95Total.value &&
      s.p50Total.value in Durations(data) && s.p95Total.value in Durations(data) &&
      0.0 <= s.errorRate <= 1.0 &&
      s.byTime == ByTime(data, groupBy)
  {
    MedianBelowP95(Durations(data));
    Fraction(ErrorCount(data), |data|);
  }


  // ---------------------------------------------------------------- route

  /** The route's answer: an error with status 500, or the records and their statistics. */
  datatype Response =
    | Failure(status: nat, error: string, details: string)
    | Body(data: seq<MetricsRecord>, stats: Stats, timeRange: string, groupBy: string, count: Option<nat>)

  /**
   * `GET /api/metrics` with the given parameters at time `now`; `fetch` is
   * what the database answers for a request.
   */
  function Get(range: Option<string>, groupBy: Option<string>, limit: Option<string>, now: int,
               fetch: Request -> Result<seq<MetricsRecord>>): (r: Response)
    ensures var q := ParseQuery(range, groupBy, limit);
      var answer := fetch(RequestFor(q, now));
      (r.Failure? <==> answer.Failed?) &&
      (r.Failure? ==> r.status == 500 && r.details == answer.message) &&
      (r.Body? ==> (r.data == answer.value && r.timeRange == q.timeRange && r.groupBy == q.groupBy)) &&
      (r.Body? ==> (r.stats == CalculateStats(r.data, q.groupBy) && r.stats.total == |r.data|)) &&
      (r.Body? ==> (r.count.Some? <==> r.data != []) && (r.count.Some? ==> r.count.value == |r.data|))
  {
    var q := ParseQuery(range, groupBy, limit);
    match fetch(RequestFor(q, now))
    case Failed(message) => Failure(500, "Failed to fetch metrics", message)
    case Ok(data) =>
      if data == [] then Body([], EmptyStats, q.timeRange, q.groupBy, None)
      else Body(data, CalculateStats(data, q.groupBy), q.timeRange, q.groupBy, Some(|data|))
  }
}
