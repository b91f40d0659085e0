/**
 * The voice chat metrics collector (lib/metrics.ts): named checkpoints
 * with the time they were reached, durations between two of them, and a
 * metrics record that dotted key paths write into. The record is a tree of
 * JavaScript values; the clock is a parameter, and the cost estimate and the
 * database write are not modelled.
 */
module Metrics {
  import opened Wrappers
  import opened Strings
  import opened Scan
  import opened Sorting

  /** The JavaScript values a metric can hold; `Obj` is a plain object. */
  datatype Value = Undefined | Null | Bool(b: bool) | Num(n: int) | Str(s: string) | Obj(fields: map<string, Value>)

  /** JavaScript truthiness: `false`, `0`, `''`, `null` and `undefined` are falsy. */
  predicate Truthy(v: Value) {
    match v
    case Undefined => false
    case Null => false
    case Bool(b) => b
    case Num(n) => n != 0
    case Str(s) => s != []
    case Obj(_) => true
  }

  /** The value found by following `path` through objects, if every step exists. */
  function Get(v: Value, path: seq<string>): Option<Value>
    decreases |path|
  {
    if path == [] then Some(v)
    else match v
      case Obj(f) => if path[0] in f then Get(f[path[0]], path[1..]) else None
      case _ => None
  }

  /** The object the walk enters at key `k`: the value there if it is truthy, a new `{}` otherwise. */
  function Child(m: map<string, Value>, k: string): Value {
    if k in m && Truthy(m[k]) then m[k] else Obj(map[])
  }

  /** A value that stops a path walk: a truthy primitive, whose properties cannot be assigned. */
  predicate Blocks(v: Option<Value>) {
    v.Some? && Truthy(v.value) && !v.value.Obj?
  }

  /**
   * The loop of `setMetric` over an object with fields `m`: missing or
   * falsy intermediates become `{}`, the last key gets `x`. Walking into a
   * truthy primitive ends in an assignment to a property of a primitive,
   * which throws a `TypeError` in the strict code of a class body.
   */
  function SetPath(m: map<string, Value>, keys: seq<string>, x: Value): (r: Result<map<string, Value>>)
    requires |keys| >= 1
    ensures r.Ok? ==> Get(Obj(r.value), keys) == Some(x)
    ensures r.Ok? ==> forall i :: 1 <= i < |keys| ==> Get(Obj(r.value), keys[..i]).Some? && Get(Obj(r.value), keys[..i]).value.Obj?
    ensures r.Failed? <==> exists i :: 1 <= i < |keys| && Blocks(Get(Obj(m), keys[..i]))
    decreases |keys|
  {
    if |keys| == 1 then Ok(m[keys[0] := x])
    else
      assert keys[..1] == [keys[0]];
      match Child(m, keys[0])
      case Obj(cm) =>
        var sub := SetPath(cm, keys[1..], x);
        SetPathStep(m, keys, x, cm, sub);
        (match sub
         case Ok(c) => Ok(m[keys[0] := Obj(c)])
         case Failed(e) => Failed(e))
      case _ =>
        Failed("TypeError: Cannot create property on a primitive value")
  }

  /** How the paths of the outer object relate to those of the child the walk enters. */
  lemma SetPathStep(m: map<string, Value>, keys: seq<string>, x: Value, cm: map<string, Value>, sub: Result<map<string, Value>>)
    requires |keys| >= 2
    requires Obj(cm) == Child(m, keys[0])
    requires sub.Ok? ==> Get(Obj(sub.value), keys[1..]) == Some(x)
    requires sub.Ok? ==> forall i :: 1 <= i < |keys| - 1 ==> Get(Obj(sub.value), keys[1..][..i]).Some? && Get(Obj(sub.value), keys[1..][..i]).value.Obj?
    requires sub.Failed? <==> exists i :: 1 <= i < |keys| - 1 && Blocks(Get(Obj(cm), keys[1..][..i]))
    ensures sub.Ok? ==> Get(Obj(m[keys[0] := Obj(sub.value)]), keys) == Some(x)
    ensures sub.Ok? ==> forall i :: 1 <= i < |keys| ==>
      Get(Obj(m[keys[0] := Obj(sub.value)]), keys[..i]).Some? && Get(Obj(m[keys[0] := Obj(sub.value)]), keys[..i]).value.Obj?
    ensures sub.Failed? <==> exists i :: 1 <= i < |keys| && Blocks(Get(Obj(m), keys[..i]))
  {
    ChildPaths(m, keys, cm);
    if sub.Ok? {
      SetPathStepOk(m, keys, x, sub.value);
    } else {
      var i :| 1 <= i < |keys| - 1 && Blocks(Get(Obj(cm), keys[1..][..i]));
      assert Blocks(Get(Obj(m), keys[..i + 1]));
    }
  }

  /** Below the first key, the paths of the outer object are those of the child the walk enters. */
  lemma ChildPaths(m: map<string, Value>, keys: seq<string>, cm: map<string, Value>)
    requires |keys| >= 2
    requires Obj(cm) == Child(m, keys[0])
    ensures !Blocks(Get(Obj(m), keys[..1]))
    ensures forall i :: 2 <= i < |keys| ==> Get(Obj(m), keys[..i]) == Get(Obj(cm), keys[1..][..i - 1])
  {
    assert keys[..1] == [keys[0]];
    forall i | 2 <= i < |keys|
      ensures Get(Obj(m), keys[..i]) == Get(Obj(cm), keys[1..][..i - 1])
    {
      assert keys[..i][0] == keys[0] && keys[..i][1..] == keys[1..][..i - 1];
      if !(keys[0] in m && Truthy(m[keys[0]])) {
        EmptyHasNothing(keys[1..][..i - 1]);
        if keys[0] in m {
          FalsyHasNothing(m[keys[0]], keys[1..][..i - 1]);
        }
      }
    }
  }

  /** Putting the updated child back under the first key keeps what the child's paths promise. */
  lemma SetPathStepOk(m: map<string, Value>, keys: seq<string>, x: Value, c: map<string, Value>)
    requires |keys| >= 2
    requires Get(Obj(c), keys[1..]) == Some(x)
    requires forall i :: 1 <= i < |keys| - 1 ==> Get(Obj(c), keys[1..][..i]).Some? && Get(Obj(c), keys[1..][..i]).value.Obj?
    ensures Get(Obj(m[keys[0] := Obj(c)]), keys) == Some(x)
    ensures forall i :: 1 <= i < |keys| ==>
      Get(Obj(m[keys[0] := Obj(c)]), keys[..i]).Some? && Get(Obj(m[keys[0] := Obj(c)]), keys[..i]).value.Obj?
  {
    var n := m[keys[0] := Obj(c)];
    assert keys[..1] == [keys[0]];
    assert keys[1..] == keys[1..][..|keys| - 1];
    forall i | 1 <= i < |keys|
      ensures Get(Obj(n), keys[..i]).Some? && Get(Obj(n), keys[..i]).value.Obj?
    {
      assert keys[..i][0] == keys[0] && keys[..i][1..] == keys[1..][..i - 1];
    }
  }

  /**
   * The record rebuilt around `inner`: `trail` holds the objects the walk
   * passed through, the `k`-th entered at key `keys[k]`.
   */
  ghost function Wrap(trail: seq<map<string, Value>>, keys: seq<string>, inner: map<string, Value>): map<string, Value>
    requires |trail| <= |keys|
    decreases |trail|
  {
    if trail == [] then inner
    else Wrap(trail[..|trail| - 1], keys, trail[|trail| - 1][keys[|trail| - 1] := Obj(inner)])
  }

  /** The outcome of a walk that went through `trail` and then produced `r`. */
  ghost function Lift(trail: seq<map<string, Value>>, keys: seq<string>, r: Result<map<string, Value>>): Result<map<string, Value>>
    requires |trail| <= |keys|
  {
    match r
    case Ok(m) => Ok(Wrap(trail, keys, m))
    case Failed(e) => Failed(e)
  }

  /** One step down the path: what the rest of the walk produces is lifted one level more. */
  lemma WrapStep(trail: seq<map<string, Value>>, keys: seq<string>, current: map<string, Value>, x: Value)
    requires |trail| + 1 < |keys|
    requires Child(current, keys[|trail|]).Obj?
    ensures Lift(trail, keys, SetPath(current, keys[|trail|..], x)) ==
      Lift(trail + [current], keys, SetPath(Child(current, keys[|trail|]).fields, keys[|trail| + 1..], x))
  {
    var i := |trail|;
    assert keys[i..][0] == keys[i] && keys[i..][1..] == keys[i + 1..];
    assert (trail + [current])[..i] == trail;
  }

  /**
   * The loop of `setMetric`: walks down `keys` from the object `m`,
   * entering (and creating) one object per key but the last, assigns the
   * last key, then puts the objects passed through back together.
   */
  method AssignPath(m: map<string, Value>, keys: seq<string>, value: Value) returns (r: Result<map<string, Value>>)
    requires |keys| >= 1
    ensures r == SetPath(m, keys, value)
  {
    var current := m;
    var trail: seq<map<string, Value>> := [];
    var i := 0;
    while i < |keys| - 1
      invariant 0 <= i <= |keys| - 1 && |trail| == i
      invariant SetPath(m, keys, value) == Lift(trail, keys, SetPath(current, keys[i..], value))
    {
      var next := Child(current, keys[i]);
      assert keys[i..][0] == keys[i] && keys[i..][1..] == keys[i + 1..];
      if !next.Obj? {
        return Failed("TypeError: Cannot create property on a primitive value");
      }
      WrapStep(trail, keys, current, value);
      trail := trail + [current];
      current := next.fields;
      i := i + 1;
    }
    assert keys[i..] == [keys[i]];
    current := current[keys[i] := value];
    var whole := Rebuild(trail, keys, current);
    r := Ok(whole);
  }

  /** Puts the objects a walk passed through back together around `inner`, innermost first. */
  method Rebuild(trail: seq<map<string, Value>>, keys: seq<string>, inner: map<string, Value>) returns (r: map<string, Value>)
    requires |trail| <= |keys|
    ensures r == Wrap(trail, keys, inner)
  {
    var current := inner;
    var i := |trail|;
    assert trail[..i] == trail;
    while i > 0
      invariant 0 <= i <= |trail|
      invariant Wrap(trail, keys, inner) == Wrap(trail[..i], keys, current)
    {
      assert trail[..i][..i - 1] == trail[..i - 1];
      i := i - 1;
      current := trail[i][keys[i] := Obj(current)];
    }
    r := current;
  }

  /** The empty object has nothing below it. */
  lemma EmptyHasNothing(path: seq<string>)
    requires path != []
    ensures Get(Obj(map[]), path) == None
  {
  }

  /** A falsy value is not an object, so nothing is found below it. */
  lemma FalsyHasNothing(v: Value, path: seq<string>)
    requires !Truthy(v) && path != []
    ensures Get(v, path) == None
  {
  }

  /** `key.split('.')`. */
  function KeyPath(key: string): (keys: seq<string>)
    ensures |keys| >= 1
    ensures Join(keys, ".") == key
  {
    SplitJoin(key, '.', c => c == '.');
    SplitBy(key, c => c == '.')
  }

  /**
   * Writing a path leaves every path that leaves it before its end as it
   * was: `q` agrees with `keys` on the first `i` keys and then differs.
   */
  lemma {:induction false} SetPathKeepsSiblings(m: map<string, Value>, keys: seq<string>, x: Value, q: seq<string>, i: nat)
    requires |keys| >= 1 && SetPath(m, keys, x).Ok?
    requires i < |keys| && i < |q| && q[..i] == keys[..i] && q[i] != keys[i]
    ensures Get(Obj(SetPath(m, keys, x).value), q) == Get(Obj(m), q)
    decreases i
  {
    if i > 0 {
      assert keys[..1] == [keys[0]];
      var cm := Child(m, keys[0]).fields;
      assert q[0] == keys[0];
      SetPathKeepsSiblings(cm, keys[1..], x, q[1..], i - 1);
      if !(keys[0] in m && Truthy(m[keys[0]])) {
        EmptyHasNothing(q[1..]);
        if keys[0] in m {
          FalsyHasNothing(m[keys[0]], q[1..]);
        }
      }
    }
  }

  // ---------------------------------------------------------------- checkpoints

  /** `getDuration`: end minus start when both checkpoints exist and are non-zero, 0 otherwise. */
  function Duration(checkpoints: map<string, int>, startStage: string, endStage: string): (d: int)
    ensures startStage !in checkpoints || endStage !in checkpoints ==> d == 0
    ensures startStage in checkpoints && endStage in checkpoints && checkpoints[startStage] != 0 && checkpoints[endStage] != 0 ==>
      checkpoints[startStage] + d == checkpoints[endStage]
    ensures startStage in checkpoints && checkpoints[startStage] == 0 ==> d == 0
  {
    if startStage !in checkpoints || endStage !in checkpoints then 0
    else if checkpoints[startStage] == 0 || checkpoints[endStage] == 0 then 0
    else checkpoints[endStage] - checkpoints[startStage]
  }

  /** Checkpoints reached at non-zero times `a` then `b` are `b - a` apart, whatever was recorded for them before. */
  lemma LatestCheckpointsCount(checkpoints: map<string, int>, s: string, e: string, a0: int, a: int, b: int)
    requires s != e && a != 0 && b != 0
    ensures Duration(checkpoints[s := a0][s := a][e := b], s, e) == b - a
  {
  }

  /** The six stages `finalize` measures: the duration field and its two checkpoints. */
  const Stages: seq<(string, string, string)> := [
    ("sttDuration", "stt_start", "stt_end"),
    ("ragSearchDuration", "rag_start", "rag_end"),
    ("ragRerankDuration", "rerank_start", "rerank_end"),
    ("llmDuration", "llm_start", "llm_end"),
    ("normalizationDuration", "norm_start", "norm_end"),
    ("ttsDuration", "tts_start", "tts_end")]

  /** The `performance` record `finalize` computes; `elapsed` is the time since the collector was made. */
  function Performance(checkpoints: map<string, int>, elapsed: int): (p: map<string, Value>)
    ensures forall k :: 0 <= k < |Stages| ==> Stages[k].0 in p && p[Stages[k].0] == Num(Duration(checkpoints, Stages[k].1, Stages[k].2))
    ensures "totalDuration" in p && p["totalDuration"] == Num(elapsed)
  {
    var stages := map k | 0 <= k < |Stages| :: Stages[k].0 := Num(Duration(checkpoints, Stages[k].1, Stages[k].2));
    stages["totalDuration" := Num(elapsed)]
  }

  /** The counters the constructor starts at zero. */
  function Zeros(names: seq<string>): (m: map<string, Value>)
    ensures forall k :: 0 <= k < |names| ==> names[k] in m && m[names[k]] == Num(0)
  {
    map k | 0 <= k < |names| :: names[k] := Num(0)
  }

  const NormalizationCounters: seq<string> := ["citationsRemoved", "markdownRemoved", "fillersAdded", "sentencesSplit"]
  const CostFields: seq<string> := ["stt", "tts", "llm", "total"]

  /** The record a new collector holds; `now` stands for the `Date` of its creation. */
  function InitialMetrics(sessionId: string, userId: Option<string>, now: int): map<string, Value> {
    map[
      "sessionId" := Str(sessionId),
      "timestamp" := Num(now),
      "userId" := if userId.Some? then Str(userId.value) else Undefined,
      "performance" := Obj(map[]),
      "quality" := Obj(map["normalizationChanges" := Obj(Zeros(NormalizationCounters))]),
      "cost" := Obj(Zeros(CostFields))]
  }

  /** A new collector counts no normalisation change and no cost. */
  lemma InitiallyZero(sessionId: string, userId: Option<string>, now: int)
    ensures forall k :: 0 <= k < |NormalizationCounters| ==>
      Get(Obj(InitialMetrics(sessionId, userId, now)), ["quality", "normalizationChanges", NormalizationCounters[k]]) == Some(Num(0))
    ensures forall k :: 0 <= k < |CostFields| ==>
      Get(Obj(InitialMetrics(sessionId, userId, now)), ["cost", CostFields[k]]) == Some(Num(0))
  {
    var m := InitialMetrics(sessionId, userId, now);
    var z := Zeros(NormalizationCounters);
    forall k | 0 <= k < |NormalizationCounters|
      ensures Get(Obj(m), ["quality", "normalizationChanges", NormalizationCounters[k]]) == Some(Num(0))
    {
      var p := ["quality", "normalizationChanges", NormalizationCounters[k]];
      assert p[1..] == ["normalizationChanges", NormalizationCounters[k]];
      assert p[1..][1..] == [NormalizationCounters[k]];
      assert Get(Obj(z), [NormalizationCounters[k]]) == Some(Num(0));
    }
    forall k | 0 <= k < |CostFields|
      ensures Get(Obj(m), ["cost", CostFields[k]]) == Some(Num(0))
    {
      var p := ["cost", CostFields[k]];
      assert p[1..] == [CostFields[k]];
      assert Get(Obj(Zeros(CostFields)), [CostFields[k]]) == Some(Num(0));
    }
  }

  /** The `error` record `recordError` writes; the code is optional. */
  function ErrorRecord(stage: string, message: string, code: Option<string>): map<string, Value> {
    map[
      "hasError" := Bool(true),
      "errorStage" := Str(stage),
      "errorMessage" := Str(message),
      "errorCode" := if code.Some? then Str(code.value) else Undefined]
  }

  class VoiceMetricsCollector {
    var startTime: int
    var checkpoints: map<string, int>
    var metrics: map<string, Value>

    /** `now` is `Date.now()` at construction. */
    constructor(sessionId: string, userId: Option<string>, now: int)
      ensures startTime == now && checkpoints == map[]
      ensures metrics == InitialMetrics(sessionId, userId, now)
    {
      startTime := now;
      checkpoints := map[];
      metrics := InitialMetrics(sessionId, userId, now);
    }

    /** `checkpoint`: records (or overwrites) the time a stage was reached. */
    method Checkpoint(stage: string, now: int)
      modifies this
      ensures checkpoints == old(checkpoints)[stage := now]
      ensures startTime == old(startTime) && metrics == old(metrics)
    {
      checkpoints := checkpoints[stage := now];
    }

    function GetDuration(startStage: string, endStage: string): int
      reads this
    {
      Duration(checkpoints, startStage, endStage)
    }

    /**
     * `setMetric`: writes `value` at the dotted path `key`. The walk can
     * only meet a primitive while it is still inside existing objects (below
     * a new `{}` every key is missing), so a `TypeError` leaves the record
     * as it was.
     */
    method SetMetric(key: string, value: Value) returns (r: Result<()>)
      modifies this
      ensures r.Ok? <==> SetPath(old(metrics), KeyPath(key), value).Ok?
      ensures r.Ok? ==> metrics == SetPath(old(metrics), KeyPath(key), value).value
      ensures r.Failed? ==> metrics == old(metrics)
      ensures startTime == old(startTime) && checkpoints == old(checkpoints)
    {
      var written := AssignPath(metrics, KeyPath(key), value);
      match written
      case Ok(m) =>
        metrics := m;
        r := Ok(());
      case Failed(e) =>
        r := Failed(e);
    }

    /** `recordError`: the last error recorded replaces any earlier one. */
    method RecordError(stage: string, message: string, code: Option<string>)
      modifies this
      ensures metrics == old(metrics)["error" := Obj(ErrorRecord(stage, message, code))]
      ensures Get(Obj(metrics), ["error", "hasError"]) == Some(Bool(true))
      ensures startTime == old(startTime) && checkpoints == old(checkpoints)
    {
      metrics := metrics["error" := Obj(ErrorRecord(stage, message, code))];
      assert ["error", "hasError"][1..] == ["hasError"];
    }

    /** The duration part of `finalize`: the performance record from the checkpoints. */
    method Finalize(now: int) returns (result: map<string, Value>)
      modifies this
      ensures metrics == old(metrics)["performance" := Obj(Performance(checkpoints, now - startTime))]
      ensures result == metrics
      ensures startTime == old(startTime) && checkpoints == old(checkpoints)
    {
      metrics := metrics["performance" := Obj(Performance(checkpoints, now - startTime))];
      result := metrics;
    }
  }

  // ---------------------------------------------------------------- helpers

  /**
   * The sentence ends of the class `[.!?。!?]`: the ASCII `.`, `!` and `?`
   * and the ideographic full stop; the class repeats `!` and `?`, so the
   * full-width `！` and `？` do not end a sentence.
   */
  predicate IsSentenceEnd(c: char) {
    c == '.' || c == '!' || c == '?' || c == '。'
  }

  predicate NotBlank(s: string) { Trim(s) != [] }

  /** The pieces between runs of sentence ends. */
  function SentencePieces(text: string): seq<string> {
    Split(text, RunOf(IsSentenceEnd, 1))
  }

  /** `countSentences`: the number of non-blank pieces. */
  function CountSentences(text: string): (n: nat)
    ensures n <= |SentencePieces(text)|
  {
    |Filter(SentencePieces(text), NotBlank)|
  }

  /** The empty text has no sentence, and a non-blank text without a sentence end has one. */
  lemma SentencesWithoutEnds(text: string)
    requires forall k :: 0 <= k < |text| ==> !IsSentenceEnd(text[k])
    ensures CountSentences(text) == (if NotBlank(text) then 1 else 0)
  {
    NoEndOnePiece(text, 0);
    assert text[0..] == text;
  }

  lemma {:induction false} NoEndOnePiece(text: string, i: nat)
    requires i <= |text|
    requires forall k :: 0 <= k < |text| ==> !IsSentenceEnd(text[k])
    ensures Scan.SplitFrom(text, RunOf(IsSentenceEnd, 1), 0, i) == [text[0..]]
    decreases |text| - i
  {
    if i < |text| {
      assert RunLen(text, IsSentenceEnd, i) == 0;
      NoEndOnePiece(text, i + 1);
    }
  }

  /** No piece holds a sentence end, so the count is at most one more than the number of runs. */
  lemma SentencesBetweenEnds(text: string)
    ensures forall k :: 0 <= k < |SentencePieces(text)| ==> NoEnd(SentencePieces(text)[k])
    ensures CountSentences(text) <= |Matches(text, RunOf(IsSentenceEnd, 1))| + 1
  {
    PiecesHaveNoEnd(text, 0, 0);
    SplitPiecesAvoidMatches(text, RunOf(IsSentenceEnd, 1), 0, 0);
  }

  /** The text holds no sentence end. */
  predicate NoEnd(s: string) {
    forall j :: 0 <= j < |s| ==> !IsSentenceEnd(s[j])
  }

  lemma {:induction false} PiecesHaveNoEnd(text: string, start: nat, i: nat)
    requires start <= i <= |text|
    requires forall j :: start <= j < i ==> !IsSentenceEnd(text[j])
    ensures forall k :: 0 <= k < |Scan.SplitFrom(text, RunOf(IsSentenceEnd, 1), start, i)| ==>
      NoEnd(Scan.SplitFrom(text, RunOf(IsSentenceEnd, 1), start, i)[k])
    decreases |text| - i
  {
    var m := RunOf(IsSentenceEnd, 1);
    if i < |text| {
      if MatchAt(text, m, i) {
        var next := i + m(text, i);
        PiecesHaveNoEnd(text, next, next);
        var rest := Scan.SplitFrom(text, m, next, next);
        var r := Scan.SplitFrom(text, m, start, i);
        assert r == [text[start..i]] + rest;
        assert NoEnd(text[start..i]) by {
          forall j | 0 <= j < |text[start..i]|
            ensures !IsSentenceEnd(text[start..i][j])
          {
            assert text[start..i][j] == text[start + j];
          }
        }
        forall k | 0 <= k < |r|
          ensures NoEnd(r[k])
        {
          if k > 0 {
            assert r[k] == rest[k - 1];
          }
        }
      } else {
        assert m(text, i) == 0;
        assert RunLen(text, IsSentenceEnd, i) == 0;
        PiecesHaveNoEnd(text, start, i + 1);
        assert Scan.SplitFrom(text, m, start, i) == Scan.SplitFrom(text, m, start, i + 1);
      }
    } else {
      assert NoEnd(text[start..]) by {
        forall j | 0 <= j < |text[start..]|
          ensures !IsSentenceEnd(text[start..][j])
        {
          assert text[start..][j] == text[start + j];
        }
      }
    }
  }

  /** The sum of the similarities, left to right. */
  function SumOf(xs: seq<real>): real {
    if xs == [] then 0.0 else SumOf(xs[..|xs| - 1]) + xs[|xs| - 1]
  }

  /** `calculateAvgSimilarity`: 0 for no documents, otherwise the mean. */
  function AvgSimilarity(similarities: seq<real>): (a: real)
    ensures similarities == [] ==> a == 0.0
  {
    if similarities == [] then 0.0 else SumOf(similarities) / (|similarities| as real)
  }

  /** The mean lies between the least and the greatest similarity. */
  lemma AvgWithinBounds(similarities: seq<real>, lo: real, hi: real)
    requires similarities != []
    requires forall k :: 0 <= k < |similarities| ==> lo <= similarities[k] <= hi
    ensures lo <= AvgSimilarity(similarities) <= hi
  {
    SumBounds(similarities, lo, hi);
  }

  lemma {:induction false} SumBounds(xs: seq<real>, lo: real, hi: real)
    requires forall k :: 0 <= k < |xs| ==> lo <= xs[k] <= hi
    ensures (|xs| as real) * lo <= SumOf(xs) <= (|xs| as real) * hi
  {
    if xs != [] {
      SumBounds(xs[..|xs| - 1], lo, hi);
    }
  }
}
