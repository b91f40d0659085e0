/**
 * The speech normaliser (lib/text-normalization.ts): citations and
 * markdown are removed, punctuation spacing and Korean spacing are fixed,
 * a few fillers are inserted at random, and whitespace is cleaned up.
 * Each pass is a sequence of global `replace` calls, modelled by `Apply`;
 * the random draws of the filler pass are a parameter.
 */
module TextNormalization {
  import opened Strings
  import opened Scan
  import opened TtsPatterns

  datatype Changes = Changes(citationsRemoved: nat, markdownRemoved: nat, fillersAdded: nat, sentencesSplit: nat)

  datatype NormalizationResult = NormalizationResult(original: string, normalized: string, changes: Changes)

  /**
   * One boolean option after `{ ...DEFAULT_OPTIONS, ...options }`: a key the
   * caller leaves out keeps the default `true`, a key present with the value
   * `undefined` overrides it and switches the step off.
   */
  datatype Flag = Omitted | Given(value: bool) | Undefined

  function Enabled(f: Flag): bool {
    match f
    case Omitted => true
    case Given(b) => b
    case Undefined => false
  }

  datatype Options = Options(
    removeCitations: Flag, removeMarkdown: Flag, fixPunctuation: Flag,
    addFillers: Flag, normalizeKorean: Flag)

  const MaxFillers: nat := 2
  const DefaultMaxSentenceLength: nat := 150

  /** The rules applied one after the other, each to the whole text: the final text and the total number of matches replaced. */
  function Apply(text: string, rules: seq<Rule>): (string, nat)
    decreases |rules|
  {
    if rules == [] then (text, 0)
    else
      var before := Apply(text, rules[..|rules| - 1]);
      var last := rules[|rules| - 1];
      var step := ReplaceAll(before.0, last.m, last.f);
      (step.0, before.1 + step.1)
  }

  lemma ApplyPrefix(text: string, rules: seq<Rule>, i: nat)
    requires i < |rules|
    ensures Apply(text, rules[..i + 1]) ==
      (ReplaceAll(Apply(text, rules[..i]).0, rules[i].m, rules[i].f).0,
       Apply(text, rules[..i]).1 + ReplaceAll(Apply(text, rules[..i]).0, rules[i].m, rules[i].f).1)
  {
    assert rules[..i + 1][..i] == rules[..i];
  }

  /** When every rule shortens each match by `d`, the whole pass does so for every match it counted. */
  lemma {:induction false} ApplyShrinks(text: string, rules: seq<Rule>, d: nat)
    requires forall k :: 0 <= k < |rules| ==> ShrinksBy(rules[k], d)
    ensures |Apply(text, rules).0| + d * Apply(text, rules).1 <= |text|
    decreases |rules|
  {
    if rules != [] {
      var init := rules[..|rules| - 1];
      ApplyShrinks(text, init, d);
      var before := Apply(text, init);
      var last := rules[|rules| - 1];
      assert ShrinksBy(last, d);
      ReplaceShrinks(before.0, last.m, last.f, 0, d);
      var step := ReplaceAll(before.0, last.m, last.f);
      Distrib(d, before.1, step.1);
    }
  }

  lemma NoSpacesHomomorphic()
    ensures Homomorphic(NoSpaces)
  {
    forall a: string, b: string
      ensures NoSpaces(a + b) == NoSpaces(a) + NoSpaces(b)
    {
      DropCharsAppend(a, b, IsSpace);
    }
  }

  /** A pass of rules that only move whitespace leaves the text without whitespace unchanged. */
  lemma {:induction false} ApplyKeepsText(text: string, rules: seq<Rule>)
    requires forall k :: 0 <= k < |rules| ==> KeepsText(rules[k])
    ensures NoSpaces(Apply(text, rules).0) == NoSpaces(text)
    decreases |rules|
  {
    if rules != [] {
      var init := rules[..|rules| - 1];
      ApplyKeepsText(text, init);
      var before := Apply(text, init).0;
      var last := rules[|rules| - 1];
      assert KeepsText(last);
      NoSpacesHomomorphic();
      ReplacePreservesView(before, last.m, last.f, NoSpaces, 0);
      assert before[0..] == before;
    }
  }

  // ---------------------------------------------------------------- citations and markdown

  /** `replace` counts what `match` finds, and changes nothing when it finds nothing. */
  lemma CountedReplace(s: string, m: Matcher, f: string -> string)
    ensures ReplaceAll(s, m, f).1 == |Matches(s, m)|
    ensures Matches(s, m) == [] ==> ReplaceAll(s, m, f) == (s, 0)
  {
    ReplaceCountIsMatchCount(s, m, f, 0);
    if Matches(s, m) == [] {
      NoMatchesNoMatch(s, m, 0);
      ReplaceNoMatch(s, m, f, 0);
      assert s[0..] == s;
    }
  }

  /** The `patterns.forEach` of `removeCitations`: each pattern is counted with `match` and replaced only when it matched. */
  method CountAndReplace(text: string, patterns: seq<Rule>) returns (result: string, count: nat)
    ensures (result, count) == Apply(text, patterns)
  {
    result, count := text, 0;
    for i := 0 to |patterns|
      invariant (result, count) == Apply(text, patterns[..i])
    {
      ApplyPrefix(text, patterns, i);
      var rule := patterns[i];
      var matches := Matches(result, rule.m);
      CountedReplace(result, rule.m, rule.f);
      if |matches| > 0 {
        count := count + |matches|;
        result := ReplaceAll(result, rule.m, rule.f).0;
      }
    }
    assert patterns[..|patterns|] == patterns;
  }

  /** `removeCitations`: every citation removed is counted, and each took at least three characters with it. */
  method RemoveCitations(text: string) returns (result: string, count: nat)
    ensures (result, count) == Apply(text, CitationRules())
    ensures |result| + 3 * count <= |text|
  {
    result, count := CountAndReplace(text, CitationRules());
    CitationsShrink();
    ApplyShrinks(text, CitationRules(), 3);
  }

  /** The `patterns.forEach` of `removeMarkdown`: every callback invocation, that is every match replaced, is counted. */
  method ReplaceEach(text: string, patterns: seq<Rule>) returns (result: string, count: nat)
    ensures (result, count) == Apply(text, patterns)
  {
    result, count := text, 0;
    for i := 0 to |patterns|
      invariant (result, count) == Apply(text, patterns[..i])
    {
      ApplyPrefix(text, patterns, i);
      var step := ReplaceAll(result, patterns[i].m, patterns[i].f);
      result, count := step.0, count + step.1;
    }
    assert patterns[..|patterns|] == patterns;
  }

  /** `removeMarkdown`: each markup match removed is counted and shortened the text by at least two. */
  method RemoveMarkdown(text: string) returns (result: string, count: nat)
    ensures (result, count) == Apply(text, MarkdownRules())
    ensures |result| + 2 * count <= |text|
  {
    result, count := ReplaceEach(text, MarkdownRules());
    MarkdownShrinks();
    ApplyShrinks(text, MarkdownRules(), 2);
  }

  // ---------------------------------------------------------------- punctuation and Korean

  /** `fixPunctuation`. */
  function FixPunctuation(text: string): (r: string)
    ensures NoSpaces(r) == NoSpaces(text)
  {
    PunctuationKeepsText();
    ApplyKeepsText(text, PunctuationRules());
    Apply(text, PunctuationRules()).0
  }

  /** `normalizeKoreanText`; `isLetter` is the `\p{L}` class. */
  function NormalizeKorean(text: string, isLetter: char -> bool): (r: string)
    ensures NoSpaces(r) == NoSpaces(text)
  {
    KoreanKeepsText(isLetter);
    ApplyKeepsText(text, KoreanRules(isLetter));
    Apply(text, KoreanRules(isLetter)).0
  }

  /** `splitLongSentences`: not implemented by the site; the text comes back unchanged with no split counted. */
  function SplitLongSentences(text: string, maxLength: nat): (r: (string, nat))
    ensures r.0 == text && r.1 == 0
  {
    (text, 0)
  }

  // ---------------------------------------------------------------- fillers

  /**
   * The filler pass as a function: rule `k` fires when fewer than two
   * fillers were added, its pattern occurs, and the draw `lucky(k)`
   * (`Math.random() < probability`) succeeds; it then replaces the first match.
   */
  function Fillers(text: string, rules: seq<Rule>, lucky: nat -> bool): (string, nat)
    decreases |rules|
  {
    if rules == [] then (text, 0)
    else
      var before := Fillers(text, rules[..|rules| - 1], lucky);
      var last := rules[|rules| - 1];
      if before.1 < MaxFillers && FirstMatchFrom(before.0, last.m, 0).Some? && lucky(|rules| - 1) then
        (ReplaceFirst(before.0, last.m, last.f), before.1 + 1)
      else before
  }

  lemma FillersPrefix(text: string, rules: seq<Rule>, lucky: nat -> bool, i: nat)
    requires i < |rules|
    ensures var before := Fillers(text, rules[..i], lucky);
      Fillers(text, rules[..i + 1], lucky) ==
        if before.1 < MaxFillers && FirstMatchFrom(before.0, rules[i].m, 0).Some? && lucky(i) then
          (ReplaceFirst(before.0, rules[i].m, rules[i].f), before.1 + 1)
        else before
  {
    assert rules[..i + 1][..i] == rules[..i];
  }

  /** At most two fillers, at most one per rule; none when no draw succeeds. */
  lemma {:induction false} FillersBounded(text: string, rules: seq<Rule>, lucky: nat -> bool)
    ensures Fillers(text, rules, lucky).1 <= MaxFillers
    ensures Fillers(text, rules, lucky).1 <= |rules|
    ensures (forall k :: 0 <= k < |rules| ==> !lucky(k)) ==> Fillers(text, rules, lucky) == (text, 0)
    decreases |rules|
  {
    if rules != [] {
      FillersBounded(text, rules[..|rules| - 1], lucky);
    }
  }

  /** A rule whose pattern does not occur adds nothing, whatever the draws. */
  lemma {:induction false} FillersNeedMatch(text: string, rules: seq<Rule>, lucky: nat -> bool)
    requires forall k :: 0 <= k < |rules| ==> forall j :: 0 <= j < |text| ==> !MatchAt(text, rules[k].m, j)
    ensures Fillers(text, rules, lucky) == (text, 0)
    decreases |rules|
  {
    if rules != [] {
      FillersNeedMatch(text, rules[..|rules| - 1], lucky);
      var last := rules[|rules| - 1];
      assert forall j :: 0 <= j < |text| ==> !MatchAt(text, last.m, j);
    }
  }

  /** The `rules.forEach` of `addStrategicFillers`: stop adding after two, otherwise replace the first match when the draw succeeds. */
  method FillerPass(text: string, rules: seq<Rule>, lucky: nat -> bool) returns (result: string, count: nat)
    ensures (result, count) == Fillers(text, rules, lucky)
    ensures count <= MaxFillers
  {
    result, count := text, 0;
    for i := 0 to |rules|
      invariant (result, count) == Fillers(text, rules[..i], lucky)
    {
      FillersPrefix(text, rules, lucky, i);
      if count < MaxFillers {
        var found := FirstMatchFrom(result, rules[i].m, 0);
        if found.Some? && lucky(i) {
          result := ReplaceFirst(result, rules[i].m, rules[i].f);
          count := count + 1;
        }
      }
    }
    assert rules[..|rules|] == rules;
    FillersBounded(text, rules, lucky);
  }

  /** `addStrategicFillers` with the outcomes of its random draws given. */
  method AddStrategicFillers(text: string, lucky: nat -> bool) returns (result: string, count: nat)
    ensures (result, count) == Fillers(text, FillerRules(), lucky)
    ensures count <= MaxFillers
  {
    result, count := FillerPass(text, FillerRules(), lucky);
  }

  // ---------------------------------------------------------------- whitespace cleanup

  /** The characters at `k - 1` and `k` are both whitespace. */
  predicate SpacePair(s: string, k: nat) { 0 < k < |s| && IsSpace(s[k - 1]) && IsSpace(s[k]) }

  /** No two whitespace characters next to each other. */
  predicate SingleSpaced(s: string) {
    forall k :: 0 < k < |s| ==> !SpacePair(s, k)
  }

  /** What the cleanup promises: single spacing and nothing to trim. */
  predicate Clean(s: string) {
    SingleSpaced(s) && (s == [] || (!IsSpace(s[0]) && !IsSpace(s[|s| - 1])))
  }

  function Collapse(text: string): string { ReplaceAll(text, SpaceRun(), OneSpace).0 }

  function DropLineStarts(text: string): string { ReplaceAll(text, LineStartSpace, Delete).0 }

  function DropLineEnds(text: string): string { ReplaceAll(text, LineEndSpace, Delete).0 }

  /** `cleanupWhitespace`. */
  function CleanupWhitespace(text: string): string {
    Trim(DropLineEnds(DropLineStarts(Collapse(text))))
  }

  /** Putting a character in front of a single-spaced text keeps it single-spaced unless both are whitespace. */
  lemma ConsSingle(c: char, rest: string)
    requires SingleSpaced(rest)
    requires rest != [] && IsSpace(c) ==> !IsSpace(rest[0])
    ensures SingleSpaced([c] + rest)
  {
    var r := [c] + rest;
    forall j: nat
      ensures !SpacePair(r, j)
    {
      if 1 < j < |r| {
        assert r[j - 1] == rest[j - 2] && r[j] == rest[j - 1];
        assert !SpacePair(rest, j - 1);
      }
    }
  }

  /** Where the `\s{2,}` pattern matches: exactly at the start of a whitespace run of two or more, taking all of it. */
  lemma SpaceRunAt(s: string, i: nat)
    requires i < |s|
    ensures MatchAt(s, SpaceRun(), i) <==> RunLen(s, IsSpace, i) >= 2
    ensures MatchAt(s, SpaceRun(), i) ==> SpaceRun()(s, i) == RunLen(s, IsSpace, i)
    ensures !MatchAt(s, SpaceRun(), i) && IsSpace(s[i]) && i + 1 < |s| ==> !IsSpace(s[i + 1])
  {
  }

  /**
   * What a whitespace pass needs of its pattern for its output to be
   * single-spaced: a match begins on whitespace, is replaced by at most one
   * whitespace character and is followed by a non-space, and an unmatched
   * whitespace character is followed by a non-space.
   */
  ghost predicate SpacingPass(s: string, m: Matcher, f: string -> string) {
    (forall j :: 0 <= j < |s| && MatchAt(s, m, j) ==>
       IsSpace(s[j]) && |f(MatchText(s, m, j))| <= 1 && AllSpace(f(MatchText(s, m, j)))
       && (j + m(s, j) < |s| ==> !IsSpace(s[j + m(s, j)])))
    && (forall j :: 0 <= j < |s| - 1 && !MatchAt(s, m, j) && IsSpace(s[j]) ==> !IsSpace(s[j + 1]))
  }

  lemma {:induction false} SpacingPassSingle(s: string, m: Matcher, f: string -> string, i: nat)
    requires i <= |s|
    requires SpacingPass(s, m, f)
    ensures var r := ReplaceAllFrom(s, m, f, i).0;
      && SingleSpaced(r)
      && (r != [] && IsSpace(r[0]) ==> IsSpace(s[i]))
    decreases |s| - i
  {
    if i < |s| {
      var r := ReplaceAllFrom(s, m, f, i).0;
      if MatchAt(s, m, i) {
        var k := m(s, i);
        SpacingPassSingle(s, m, f, i + k);
        var t, rest := f(MatchText(s, m, i)), ReplaceAllFrom(s, m, f, i + k).0;
        assert r == t + rest;
        assert rest != [] ==> !IsSpace(rest[0]);
        if t == [] {
          assert r == rest;
        } else {
          assert t == [t[0]];
          ConsSingle(t[0], rest);
        }
      } else {
        SpacingPassSingle(s, m, f, i + 1);
        var rest := ReplaceAllFrom(s, m, f, i + 1).0;
        assert r == [s[i]] + rest;
        ConsSingle(s[i], rest);
      }
    }
  }

  /** Collapsing whitespace runs leaves no two whitespace characters together. */
  lemma CollapseSingle(s: string)
    ensures SingleSpaced(Collapse(s))
  {
    var m := SpaceRun();
    forall j | 0 <= j < |s| && MatchAt(s, m, j)
      ensures IsSpace(s[j]) && (j + m(s, j) < |s| ==> !IsSpace(s[j + m(s, j)]))
    {
      SpaceRunAt(s, j);
    }
    forall j | 0 <= j < |s| - 1 && !MatchAt(s, m, j) && IsSpace(s[j])
      ensures !IsSpace(s[j + 1])
    {
      SpaceRunAt(s, j);
    }
    SpacingPassSingle(s, m, OneSpace, 0);
  }

  /** Deleting whitespace-only matches from a single-spaced text keeps it single-spaced. */
  lemma DeleteSpacesSingle(s: string, m: Matcher)
    requires SingleSpaced(s)
    requires forall j :: 0 <= j < |s| && MatchAt(s, m, j) ==> AllSpace(MatchText(s, m, j))
    ensures SingleSpaced(ReplaceAll(s, m, Delete).0)
  {
    forall j | 0 <= j < |s| && MatchAt(s, m, j)
      ensures IsSpace(s[j]) && (j + m(s, j) < |s| ==> !IsSpace(s[j + m(s, j)]))
    {
      var t := MatchText(s, m, j);
      var next: nat := j + 1;
      assert IsSpace(t[0]);
      assert next < |s| ==> !SpacePair(s, next);
      assert m(s, j) >= 2 ==> SpacePair(s, next);
      assert m(s, j) == 1;
    }
    forall j | 0 <= j < |s| - 1 && !MatchAt(s, m, j) && IsSpace(s[j])
      ensures !IsSpace(s[j + 1])
    {
      assert !SpacePair(s, j + 1);
    }
    SpacingPassSingle(s, m, Delete, 0);
  }

  lemma LineStartsAreSpace(s: string, j: nat)
    requires MatchAt(s, LineStartSpace, j)
    ensures AllSpace(MatchText(s, LineStartSpace, j))
  {
  }

  lemma LineEndsAreSpace(s: string, j: nat)
    requires MatchAt(s, LineEndSpace, j)
    ensures AllSpace(MatchText(s, LineEndSpace, j))
  {
    assert LineEndSpace(s, j) <= RunLen(s, IsSpace, j);
  }

  /** A slice of a single-spaced text is single-spaced. */
  lemma SliceSingle(s: string, a: nat, b: nat)
    requires a <= b <= |s|
    requires SingleSpaced(s)
    ensures SingleSpaced(s[a..b])
  {
    forall k: nat
      ensures !SpacePair(s[a..b], k)
    {
      if 0 < k < b - a {
        assert s[a..b][k - 1] == s[a + k - 1] && s[a..b][k] == s[a + k];
        assert !SpacePair(s, a + k);
      }
    }
  }

  lemma DropLineStartsSingle(s: string)
    requires SingleSpaced(s)
    ensures SingleSpaced(DropLineStarts(s))
  {
    forall j | 0 <= j < |s| && MatchAt(s, LineStartSpace, j)
      ensures AllSpace(MatchText(s, LineStartSpace, j))
    {
      LineStartsAreSpace(s, j);
    }
    DeleteSpacesSingle(s, LineStartSpace);
  }

  lemma DropLineEndsSingle(s: string)
    requires SingleSpaced(s)
    ensures SingleSpaced(DropLineEnds(s))
  {
    forall j | 0 <= j < |s| && MatchAt(s, LineEndSpace, j)
      ensures AllSpace(MatchText(s, LineEndSpace, j))
    {
      LineEndsAreSpace(s, j);
    }
    DeleteSpacesSingle(s, LineEndSpace);
  }

  /** The cleaned text has no whitespace at either end and never two whitespace characters together. */
  lemma CleanupIsClean(text: string)
    ensures Clean(CleanupWhitespace(text))
  {
    var c1 := Collapse(text);
    CollapseSingle(text);
    DropLineStartsSingle(c1);
    var c2 := DropLineStarts(c1);
    DropLineEndsSingle(c2);
    TrimmedIsClean(DropLineEnds(c2));
  }

  /** Trimming a single-spaced text gives a clean one. */
  lemma TrimmedIsClean(s: string)
    requires SingleSpaced(s)
    ensures Clean(Trim(s))
  {
    TrimSlice(s);
    SliceSingle(s, Leading(s), Leading(s) + |Trim(s)|);
  }

  /** Deleting whitespace-only matches leaves the text without whitespace unchanged. */
  lemma DeleteSpacesKeepsText(s: string, m: Matcher)
    requires forall j :: 0 <= j < |s| && MatchAt(s, m, j) ==> AllSpace(MatchText(s, m, j))
    ensures NoSpaces(ReplaceAll(s, m, Delete).0) == NoSpaces(s)
  {
    NoSpacesHomomorphic();
    forall j | 0 <= j < |s| && MatchAt(s, m, j)
      ensures NoSpaces(Delete(MatchText(s, m, j))) == NoSpaces(MatchText(s, m, j))
    {
      DropCharsAll(MatchText(s, m, j), IsSpace);
    }
    ReplacePreservesView(s, m, Delete, NoSpaces, 0);
    assert s[0..] == s;
  }

  /** The cleanup changes whitespace only. */
  lemma CleanupKeepsText(text: string)
    ensures NoSpaces(CleanupWhitespace(text)) == NoSpaces(text)
  {
    NoSpacesHomomorphic();
    var m := SpaceRun();
    forall j | 0 <= j < |text| && MatchAt(text, m, j)
      ensures NoSpaces(OneSpace(MatchText(text, m, j))) == NoSpaces(MatchText(text, m, j))
    {
      DropCharsAll(MatchText(text, m, j), IsSpace);
      DropCharsAll(" ", IsSpace);
    }
    ReplacePreservesView(text, m, OneSpace, NoSpaces, 0);
    assert text[0..] == text;
    var c1 := Collapse(text);
    forall j | 0 <= j < |c1| && MatchAt(c1, LineStartSpace, j)
      ensures AllSpace(MatchText(c1, LineStartSpace, j))
    {
      LineStartsAreSpace(c1, j);
    }
    DeleteSpacesKeepsText(c1, LineStartSpace);
    var c2 := DropLineStarts(c1);
    forall j | 0 <= j < |c2| && MatchAt(c2, LineEndSpace, j)
      ensures AllSpace(MatchText(c2, LineEndSpace, j))
    {
      LineEndsAreSpace(c2, j);
    }
    DeleteSpacesKeepsText(c2, LineEndSpace);
    var c3 := DropLineEnds(c2);
    TrimKeepsText(c3);
  }

  lemma TrimKeepsText(s: string)
    ensures NoSpaces(Trim(s)) == NoSpaces(s)
  {
    TrimSlice(s);
    var a, b := Leading(s), Leading(s) + |Trim(s)|;
    assert s == s[..a] + Trim(s) + s[b..];
    DropCharsAppend(s[..a] + Trim(s), s[b..], IsSpace);
    DropCharsAppend(s[..a], Trim(s), IsSpace);
    DropCharsAll(s[..a], IsSpace);
    DropCharsAll(s[b..], IsSpace);
  }

  /** On a text that is already clean, no cleanup pattern matches. */
  lemma CleanHasNoMatches(s: string)
    requires Clean(s)
    ensures forall j :: 0 <= j < |s| ==> !MatchAt(s, SpaceRun(), j)
    ensures forall j :: 0 <= j < |s| ==> !MatchAt(s, LineStartSpace, j)
    ensures forall j :: 0 <= j < |s| ==> !MatchAt(s, LineEndSpace, j)
  {
    forall j | 0 <= j < |s|
      ensures !MatchAt(s, SpaceRun(), j) && !MatchAt(s, LineStartSpace, j) && !MatchAt(s, LineEndSpace, j)
    {
      if IsSpace(s[j]) {
        assert j > 0 && !SpacePair(s, j);
        assert j + 1 < |s| && !SpacePair(s, j + 1);
        assert RunLen(s, IsSpace, j) == 1;
        assert !LineEnd(s, j + 1);
      }
    }
  }

  /** A clean text is left as it is. */
  lemma CleanIsFixed(s: string)
    requires Clean(s)
    ensures CleanupWhitespace(s) == s
  {
    CleanHasNoMatches(s);
    ReplaceNoMatch(s, SpaceRun(), OneSpace, 0);
    ReplaceNoMatch(s, LineStartSpace, Delete, 0);
    ReplaceNoMatch(s, LineEndSpace, Delete, 0);
    assert s[0..] == s;
    TrimOfTrimmed(s);
  }

  /** Cleaning twice is cleaning once. */
  lemma CleanupIdempotent(text: string)
    ensures CleanupWhitespace(CleanupWhitespace(text)) == CleanupWhitespace(text)
  {
    CleanupIsClean(text);
    CleanIsFixed(CleanupWhitespace(text));
  }

  // ---------------------------------------------------------------- the pipeline

  /** The normaliser as a function of its input, options and random draws. */
  function Normalize(text: string, options: Options, isLetter: char -> bool, lucky: nat -> bool): NormalizationResult {
    var cited := if Enabled(options.removeCitations) then Apply(text, CitationRules()) else (text, 0);
    var plain := if Enabled(options.removeMarkdown) then Apply(cited.0, MarkdownRules()) else (cited.0, 0);
    var punctuated := if Enabled(options.fixPunctuation) then FixPunctuation(plain.0) else plain.0;
    var korean := if Enabled(options.normalizeKorean) then NormalizeKorean(punctuated, isLetter) else punctuated;
    var filled := if Enabled(options.addFillers) then Fillers(korean, FillerRules(), lucky) else (korean, 0);
    NormalizationResult(text, CleanupWhitespace(filled.0), Changes(cited.1, plain.1, filled.1, 0))
  }

  /** `normalizeForTTS`; a missing `options` argument is `Options(Omitted, …)`. */
  method NormalizeForTTS(text: string, options: Options, isLetter: char -> bool, lucky: nat -> bool)
    returns (r: NormalizationResult)
    ensures r == Normalize(text, options, isLetter, lucky)
    ensures r.original == text
    ensures Clean(r.normalized)
    ensures r.changes.fillersAdded <= MaxFillers && r.changes.sentencesSplit == 0
    ensures !Enabled(options.removeCitations) ==> r.changes.citationsRemoved == 0
    ensures !Enabled(options.removeMarkdown) ==> r.changes.markdownRemoved == 0
    ensures !Enabled(options.addFillers) ==> r.changes.fillersAdded == 0
  {
    var normalized := text;
    var changes := Changes(0, 0, 0, 0);
    if Enabled(options.removeCitations) {
      var t, n := RemoveCitations(normalized);
      normalized, changes := t, changes.(citationsRemoved := n);
    }
    if Enabled(options.removeMarkdown) {
      var t, n := RemoveMarkdown(normalized);
      normalized, changes := t, changes.(markdownRemoved := n);
    }
    if Enabled(options.fixPunctuation) {
      normalized := FixPunctuation(normalized);
    }
    if Enabled(options.normalizeKorean) {
      normalized := NormalizeKorean(normalized, isLetter);
    }
    if Enabled(options.addFillers) {
      var t, n := AddStrategicFillers(normalized, lucky);
      normalized, changes := t, changes.(fillersAdded := n);
    }
    CleanupIsClean(normalized);
    normalized := CleanupWhitespace(normalized);
    r := NormalizationResult(text, normalized, changes);
  }

  /**
   * Without fillers, what is spoken differs from the text left after
   * removing citations and markdown in whitespace only.
   */
  lemma {:induction false} OnlyRemovalsChangeText(text: string, options: Options, isLetter: char -> bool, lucky: nat -> bool)
    requires !Enabled(options.addFillers)
    ensures var cited := if Enabled(options.removeCitations) then Apply(text, CitationRules()).0 else text;
      var plain := if Enabled(options.removeMarkdown) then Apply(cited, MarkdownRules()).0 else cited;
      NoSpaces(Normalize(text, options, isLetter, lucky).normalized) == NoSpaces(plain)
  {
    var cited := if Enabled(options.removeCitations) then Apply(text, CitationRules()).0 else text;
    var plain := if Enabled(options.removeMarkdown) then Apply(cited, MarkdownRules()).0 else cited;
    var punctuated := if Enabled(options.fixPunctuation) then FixPunctuation(plain) else plain;
    var korean := if Enabled(options.normalizeKorean) then NormalizeKorean(punctuated, isLetter) else punctuated;
    CleanupKeepsText(korean);
  }

  /** With every step switched off, only the whitespace cleanup runs. */
  lemma AllOffOnlyCleans(text: string, isLetter: char -> bool, lucky: nat -> bool)
    ensures var off := Given(false);
      Normalize(text, Options(off, off, off, off, off), isLetter, lucky)
        == NormalizationResult(text, CleanupWhitespace(text), Changes(0, 0, 0, 0))
  {
  }
}
