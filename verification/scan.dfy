/**
 * The leftmost, non-overlapping scan that JavaScript's global
 * `replace`, `match`, `matchAll`, `exec` loops and `split` perform with a
 * regular expression. A pattern is represented by a matcher: the length of
 * the match that begins at an index of the whole input (so look-behind and
 * `^`/`$` anchors can inspect the surrounding text), 0 when there is none.
 * Every pattern of the site matches at least one character, so the scan
 * never has to step over an empty match.
 */
module Scan {
  import opened Strings
  import opened Wrappers

  type Matcher = (string, nat) -> nat

  /** A match of `m` begins at index `i` of `s`. */
  predicate MatchAt(s: string, m: Matcher, i: nat) {
    i < |s| && 0 < m(s, i) <= |s| - i
  }

  /** The text of the match at `i`. */
  function MatchText(s: string, m: Matcher, i: nat): string
    requires MatchAt(s, m, i)
  {
    s[i..i + m(s, i)]
  }

  datatype Span = Span(start: nat, len: nat)

  /** Global `replace(pattern, f)` from index `i`: the new text and the number of matches replaced. */
  function ReplaceAllFrom(s: string, m: Matcher, f: string -> string, i: nat): (r: (string, nat))
    requires i <= |s|
    decreases |s| - i
  {
    if i == |s| then ([], 0)
    else if MatchAt(s, m, i) then
      var rest := ReplaceAllFrom(s, m, f, i + m(s, i));
      (f(MatchText(s, m, i)) + rest.0, rest.1 + 1)
    else
      var rest := ReplaceAllFrom(s, m, f, i + 1);
      ([s[i]] + rest.0, rest.1)
  }

  function ReplaceAll(s: string, m: Matcher, f: string -> string): (string, nat) {
    ReplaceAllFrom(s, m, f, 0)
  }

  /** Every match `MatchesFrom` finds, in order: `matchAll`, or an `exec` loop over a global pattern. */
  function MatchesFrom(s: string, m: Matcher, i: nat): (r: seq<Span>)
    requires i <= |s|
    ensures forall k :: 0 <= k < |r| ==> i <= r[k].start && MatchAt(s, m, r[k].start) && r[k].len == m(s, r[k].start)
    decreases |s| - i
  {
    if i == |s| then []
    else if MatchAt(s, m, i) then [Span(i, m(s, i))] + MatchesFrom(s, m, i + m(s, i))
    else MatchesFrom(s, m, i + 1)
  }

  function Matches(s: string, m: Matcher): seq<Span> { MatchesFrom(s, m, 0) }

  /** The first match at or after `i`, as a non-global `match` or `replace` finds it. */
  function FirstMatchFrom(s: string, m: Matcher, i: nat): (r: Option<nat>)
    requires i <= |s|
    ensures r.Some? ==> i <= r.value && MatchAt(s, m, r.value)
    ensures r.Some? ==> forall j :: i <= j < r.value ==> !MatchAt(s, m, j)
    ensures r.None? ==> forall j :: i <= j < |s| ==> !MatchAt(s, m, j)
    decreases |s| - i
  {
    if i == |s| then None
    else if MatchAt(s, m, i) then Some(i)
    else FirstMatchFrom(s, m, i + 1)
  }

  /** Non-global `replace(pattern, f)`: only the first match is replaced. */
  function ReplaceFirst(s: string, m: Matcher, f: string -> string): string {
    match FirstMatchFrom(s, m, 0)
    case None => s
    case Some(i) => s[..i] + f(MatchText(s, m, i)) + s[i + m(s, i)..]
  }

  /**
   * `split(pattern)`: the pieces between consecutive matches, the text
   * before the first and after the last match included even when empty.
   */
  function SplitFrom(s: string, m: Matcher, start: nat, i: nat): (r: seq<string>)
    requires start <= i <= |s|
    ensures |r| >= 1
    decreases |s| - i
  {
    if i == |s| then [s[start..]]
    else if MatchAt(s, m, i) then [s[start..i]] + SplitFrom(s, m, i + m(s, i), i + m(s, i))
    else SplitFrom(s, m, start, i + 1)
  }

  function Split(s: string, m: Matcher): seq<string> { SplitFrom(s, m, 0, 0) }

  // ---------------------------------------------------------------- runs

  /** Length of the run of characters satisfying `p` that begins at `i`. */
  function RunLen(s: string, p: char -> bool, i: nat): (n: nat)
    requires i <= |s|
    ensures i + n <= |s|
    ensures forall j :: i <= j < i + n ==> p(s[j])
    ensures i + n == |s| || !p(s[i + n])
    decreases |s| - i
  {
    if i < |s| && p(s[i]) then 1 + RunLen(s, p, i + 1) else 0
  }

  /** A run of exactly `n` characters satisfying `p` begins at `i`. */
  lemma {:induction false} RunLenOver(s: string, p: char -> bool, i: nat, n: nat)
    requires i + n <= |s|
    requires forall k :: i <= k < i + n ==> p(s[k])
    requires i + n == |s| || !p(s[i + n])
    ensures RunLen(s, p, i) == n
    decreases n
  {
    if n > 0 {
      RunLenOver(s, p, i + 1, n - 1);
    }
  }

  /** The pattern `[class]{min,}` (greedy): the whole run when it is long enough. */
  function RunOf(p: char -> bool, min: nat): Matcher {
    (s: string, i: nat) => if i <= |s| && RunLen(s, p, i) >= min then RunLen(s, p, i) else 0
  }

  // ---------------------------------------------------------------- general facts

  /** Multiplication distributes over addition (kept apart so that it is proved in a small context). */
  lemma Distrib(d: nat, a: nat, b: nat)
    ensures d * (a + b) == d * a + d * b
  {
  }

  /** The number of replacements is the number of matches `match` reports. */
  lemma {:induction false} ReplaceCountIsMatchCount(s: string, m: Matcher, f: string -> string, i: nat)
    requires i <= |s|
    ensures ReplaceAllFrom(s, m, f, i).1 == |MatchesFrom(s, m, i)|
    decreases |s| - i
  {
    if i < |s| {
      if MatchAt(s, m, i) {
        ReplaceCountIsMatchCount(s, m, f, i + m(s, i));
      } else {
        ReplaceCountIsMatchCount(s, m, f, i + 1);
      }
    }
  }

  /** Without a match the text is left as it is. */
  lemma {:induction false} ReplaceNoMatch(s: string, m: Matcher, f: string -> string, i: nat)
    requires i <= |s|
    requires forall j :: i <= j < |s| ==> !MatchAt(s, m, j)
    ensures ReplaceAllFrom(s, m, f, i) == (s[i..], 0)
    decreases |s| - i
  {
    if i < |s| {
      ReplaceNoMatch(s, m, f, i + 1);
      assert s[i..] == [s[i]] + s[i + 1..];
    }
  }

  /** A replacement that identifies each match with itself leaves the text unchanged. */
  lemma {:induction false} ReplaceIdentity(s: string, m: Matcher, f: string -> string, i: nat)
    requires i <= |s|
    requires forall j :: i <= j < |s| && MatchAt(s, m, j) ==> f(MatchText(s, m, j)) == MatchText(s, m, j)
    ensures ReplaceAllFrom(s, m, f, i).0 == s[i..]
    decreases |s| - i
  {
    if i < |s| {
      if MatchAt(s, m, i) {
        var k := m(s, i);
        ReplaceIdentity(s, m, f, i + k);
        assert s[i..] == s[i..i + k] + s[i + k..];
      } else {
        ReplaceIdentity(s, m, f, i + 1);
        assert s[i..] == [s[i]] + s[i + 1..];
      }
    }
  }

  /** When every replacement is at least `d` characters shorter than its match, each match costs `d`. */
  lemma {:induction false} ReplaceShrinks(s: string, m: Matcher, f: string -> string, i: nat, d: nat)
    requires i <= |s|
    requires forall j :: i <= j < |s| && MatchAt(s, m, j) ==> |f(MatchText(s, m, j))| + d <= m(s, j)
    ensures |ReplaceAllFrom(s, m, f, i).0| + d * ReplaceAllFrom(s, m, f, i).1 <= |s| - i
    decreases |s| - i
  {
    if i < |s| {
      var r := ReplaceAllFrom(s, m, f, i);
      if MatchAt(s, m, i) {
        var k := m(s, i);
        ReplaceShrinks(s, m, f, i + k, d);
        var rest := ReplaceAllFrom(s, m, f, i + k);
        assert |f(MatchText(s, m, i))| + d <= k;
        assert r == (f(MatchText(s, m, i)) + rest.0, rest.1 + 1);
        Distrib(d, rest.1, 1);
      } else {
        ReplaceShrinks(s, m, f, i + 1, d);
        var rest := ReplaceAllFrom(s, m, f, i + 1);
        assert r == ([s[i]] + rest.0, rest.1);
      }
    }
  }

  /** A map on text that distributes over concatenation. */
  ghost predicate Homomorphic(h: string -> string) {
    forall a: string, b: string {:trigger h(a + b)} :: h(a + b) == h(a) + h(b)
  }

  /** Two texts whose halves look the same to a homomorphic view look the same joined. */
  lemma ViewOfJoin(h: string -> string, a: string, b: string, c: string, d: string)
    requires Homomorphic(h) && h(a) == h(c) && h(b) == h(d)
    ensures h(a + b) == h(c + d)
  {
    assert h(a + b) == h(a) + h(b);
    assert h(c + d) == h(c) + h(d);
  }

  /**
   * If a view `h` of the text (for instance: the text without its
   * whitespace) sees each replacement as the match it replaces, it sees the
   * whole result as the input.
   */
  lemma {:induction false} ReplacePreservesView(s: string, m: Matcher, f: string -> string, h: string -> string, i: nat)
    requires i <= |s|
    requires Homomorphic(h)
    requires forall j :: i <= j < |s| && MatchAt(s, m, j) ==> h(f(MatchText(s, m, j))) == h(MatchText(s, m, j))
    ensures h(ReplaceAllFrom(s, m, f, i).0) == h(s[i..])
    decreases |s| - i
  {
    if i == |s| {
      assert h([] + []) == h([]) + h([]);
    } else if MatchAt(s, m, i) {
      var k := m(s, i);
      var text, tail := MatchText(s, m, i), s[i + k..];
      assert h(f(text)) == h(text);
      ReplacePreservesView(s, m, f, h, i + k);
      var rest := ReplaceAllFrom(s, m, f, i + k).0;
      assert ReplaceAllFrom(s, m, f, i).0 == f(text) + rest;
      assert s[i..] == text + tail;
      ViewOfJoin(h, f(text), rest, text, tail);
    } else {
      var c, tail := [s[i]], s[i + 1..];
      ReplacePreservesView(s, m, f, h, i + 1);
      var rest := ReplaceAllFrom(s, m, f, i + 1).0;
      assert ReplaceAllFrom(s, m, f, i).0 == c + rest;
      assert s[i..] == c + tail;
      ViewOfJoin(h, c, rest, c, tail);
    }
  }

  /** A scan that reports no match saw none anywhere. */
  lemma {:induction false} NoMatchesNoMatch(s: string, m: Matcher, i: nat)
    requires i <= |s|
    requires MatchesFrom(s, m, i) == []
    ensures forall j :: i <= j < |s| ==> !MatchAt(s, m, j)
    decreases |s| - i
  {
    if i < |s| {
      NoMatchesNoMatch(s, m, i + 1);
    }
  }

  /** A stretch without matches is copied as it is. */
  lemma {:induction false} ReplaceSkip(s: string, m: Matcher, f: string -> string, i: nat, j: nat)
    requires i <= j <= |s|
    requires forall k :: i <= k < j ==> !MatchAt(s, m, k)
    ensures ReplaceAllFrom(s, m, f, i) == (s[i..j] + ReplaceAllFrom(s, m, f, j).0, ReplaceAllFrom(s, m, f, j).1)
    decreases j - i
  {
    if i < j {
      ReplaceSkip(s, m, f, i + 1, j);
      assert !MatchAt(s, m, i);
      assert ReplaceAllFrom(s, m, f, i) == ([s[i]] + ReplaceAllFrom(s, m, f, i + 1).0, ReplaceAllFrom(s, m, f, i + 1).1);
      assert s[i..j] == [s[i]] + s[i + 1..j];
      ConcatAssoc([s[i]], s[i + 1..j], ReplaceAllFrom(s, m, f, j).0);
    } else {
      assert s[i..j] + ReplaceAllFrom(s, m, f, j).0 == ReplaceAllFrom(s, m, f, j).0;
    }
  }

  /** Pieces of a split and the matches between them rebuild the text. */
  lemma {:induction false} SplitPiecesAvoidMatches(s: string, m: Matcher, start: nat, i: nat)
    requires start <= i <= |s|
    requires forall j :: start <= j < i ==> !MatchAt(s, m, j)
    ensures |SplitFrom(s, m, start, i)| == |MatchesFrom(s, m, i)| + 1
    decreases |s| - i
  {
    if i < |s| {
      if MatchAt(s, m, i) {
        SplitPiecesAvoidMatches(s, m, i + m(s, i), i + m(s, i));
      } else {
        SplitPiecesAvoidMatches(s, m, start, i + 1);
      }
    }
  }
}
