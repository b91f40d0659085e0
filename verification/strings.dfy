/**
 * JavaScript string semantics used throughout the site: the `\s` class,
 * `trim`, `startsWith`/`endsWith`/`includes`, `split` on one character,
 * `join`, UTF-16 `length`, `substring(0, n)`, ASCII `toLowerCase`,
 * decimal rendering of numbers and the default `Array.prototype.sort`
 * string order (UTF-16 code units).
 */
module Strings {
  import opened Wrappers

  /** The `\s` class of JavaScript regular expressions; also what `trim` removes. */
  predicate IsSpace(c: char) {
    c == ' ' || c == '\t' || c == '\n' || c == '\r' || c == '\U{000B}' || c == '\U{000C}'
    || c == '\U{00A0}' || c == '\U{1680}' || ('\U{2000}' <= c <= '\U{200A}')
    || c == '\U{2028}' || c == '\U{2029}' || c == '\U{202F}' || c == '\U{205F}'
    || c == '\U{3000}' || c == '\U{FEFF}'
  }

  /** Characters after which `^` matches, and before which `$` matches, in multiline mode. */
  predicate IsLineTerminator(c: char) {
    c == '\n' || c == '\r' || c == '\U{2028}' || c == '\U{2029}'
  }

  lemma LineTerminatorIsSpace(c: char)
    requires IsLineTerminator(c)
    ensures IsSpace(c)
  {
  }

  /** The `\d` class: ASCII digits only. */
  predicate IsDigit(c: char) { '0' <= c <= '9' }

  predicate IsAsciiLetter(c: char) { 'a' <= c <= 'z' || 'A' <= c <= 'Z' }

  predicate NoSpace(s: string) { forall k :: 0 <= k < |s| ==> !IsSpace(s[k]) }

  predicate AllSpace(s: string) { forall k :: 0 <= k < |s| ==> IsSpace(s[k]) }

  // ---------------------------------------------------------------- case

  /** `toLowerCase` on one character, for the ASCII range. */
  function LowerChar(c: char): (r: char)
    ensures 'A' <= c <= 'Z' ==> r as int == c as int + 32
    ensures !('A' <= c <= 'Z') ==> r == c
    ensures !('A' <= r <= 'Z')
  {
    if 'A' <= c <= 'Z' then (c as int + 32) as char else c
  }

  function Lower(s: string): (r: string)
    ensures |r| == |s|
    ensures forall k :: 0 <= k < |s| ==> r[k] == LowerChar(s[k])
  {
    if s == [] then [] else [LowerChar(s[0])] + Lower(s[1..])
  }

  lemma LowerIdempotent(s: string)
    ensures Lower(Lower(s)) == Lower(s)
  {
  }

  /** A text without capital letters is its own lower case. */
  lemma LowerOfNoUpper(s: string)
    requires forall k :: 0 <= k < |s| ==> !('A' <= s[k] <= 'Z')
    ensures Lower(s) == s
  {
    var r := Lower(s);
    assert forall k :: 0 <= k < |s| ==> r[k] == s[k];
  }

  lemma LowerAppend(a: string, b: string)
    ensures Lower(a + b) == Lower(a) + Lower(b)
  {
  }

  // ---------------------------------------------------------------- prefixes and substrings

  predicate StartsWith(s: string, p: string) { |p| <= |s| && s[..|p|] == p }

  predicate EndsWith(s: string, p: string) { |p| <= |s| && s[|s| - |p|..] == p }

  /** `p` occurs in `s` starting at index `i`. */
  predicate OccursAt(s: string, p: string, i: int) {
    0 <= i && i + |p| <= |s| && s[i..i + |p|] == p
  }

  /** `s.includes(p)`. */
  predicate Contains(s: string, p: string) {
    exists i :: 0 <= i <= |s| && OccursAt(s, p, i)
  }

  /** `s.includes(p)` decided by a scan from position `i`. */
  function ContainsFrom(s: string, p: string, i: nat): (r: bool)
    requires i <= |s|
    ensures r <==> exists j :: i <= j && OccursAt(s, p, j)
    decreases |s| - i
  {
    if i + |p| > |s| then false
    else if s[i..i + |p|] == p then assert OccursAt(s, p, i); true
    else ContainsFrom(s, p, i + 1)
  }

  /** `s.indexOf(p, i)`: the first occurrence of `p` at or after `i`. */
  function IndexFrom(s: string, p: string, i: nat): (r: Option<nat>)
    requires i <= |s|
    ensures r.Some? ==> i <= r.value && OccursAt(s, p, r.value)
    ensures r.Some? ==> forall k :: i <= k < r.value ==> !OccursAt(s, p, k)
    ensures r.None? ==> forall k :: i <= k ==> !OccursAt(s, p, k)
    decreases |s| - i
  {
    if i + |p| > |s| then None
    else if s[i..i + |p|] == p then Some(i)
    else IndexFrom(s, p, i + 1)
  }

  /** `s.includes(p)` as a computable test. */
  function Includes(s: string, p: string): (r: bool)
    ensures r <==> Contains(s, p)
  {
    ContainsFrom(s, p, 0)
  }

  lemma ContainsCharIff(s: string, c: char)
    ensures Contains(s, [c]) <==> c in s
  {
    if c in s {
      var i :| 0 <= i < |s| && s[i] == c;
      assert s[i..i + 1] == [c];
      assert OccursAt(s, [c], i);
    }
    if Contains(s, [c]) {
      var i :| 0 <= i <= |s| && OccursAt(s, [c], i);
      assert s[i] == s[i..i + 1][0];
    }
  }

  lemma ContainsInLeft(a: string, b: string, p: string)
    requires Contains(a, p)
    ensures Contains(a + b, p)
  {
    var i :| 0 <= i <= |a| && OccursAt(a, p, i);
    assert (a + b)[i..i + |p|] == a[i..i + |p|];
    assert OccursAt(a + b, p, i);
  }

  lemma ContainsInRight(a: string, b: string, p: string)
    requires Contains(b, p)
    ensures Contains(a + b, p)
  {
    var i :| 0 <= i <= |b| && OccursAt(b, p, i);
    assert (a + b)[|a| + i..|a| + i + |p|] == b[i..i + |p|];
    assert OccursAt(a + b, p, |a| + i);
  }

  // ---------------------------------------------------------------- trim

  function TrimStart(s: string): (r: string)
    ensures |r| <= |s|
    ensures r == [] || !IsSpace(r[0])
  {
    if s == [] || !IsSpace(s[0]) then s else TrimStart(s[1..])
  }

  function TrimEnd(s: string): (r: string)
    ensures |r| <= |s|
    ensures r == [] || !IsSpace(r[|r| - 1])
  {
    if s == [] || !IsSpace(s[|s| - 1]) then s else TrimEnd(s[..|s| - 1])
  }

  /** `trimStart` keeps a suffix and drops only whitespace. */
  lemma {:induction false} TrimStartSuffix(s: string)
    ensures TrimStart(s) == s[|s| - |TrimStart(s)|..]
    ensures AllSpace(s[..|s| - |TrimStart(s)|])
  {
    if s != [] && IsSpace(s[0]) {
      TrimStartSuffix(s[1..]);
      assert s[..|s| - |TrimStart(s)|] == [s[0]] + s[1..][..|s| - 1 - |TrimStart(s[1..])|];
    }
  }

  /** `trimEnd` keeps a prefix and drops only whitespace. */
  lemma {:induction false} TrimEndPrefix(s: string)
    ensures TrimEnd(s) == s[..|TrimEnd(s)|]
    ensures AllSpace(s[|TrimEnd(s)|..])
  {
    if s != [] && IsSpace(s[|s| - 1]) {
      TrimEndPrefix(s[..|s| - 1]);
      assert s[|TrimEnd(s)|..] == s[..|s| - 1][|TrimEnd(s[..|s| - 1])|..] + [s[|s| - 1]];
    }
  }

  /** Number of whitespace characters `trim` drops at the front. */
  function Leading(s: string): nat { |s| - |TrimStart(s)| }

  /** `s.trim()`: drops leading and trailing whitespace. */
  function Trim(s: string): (r: string)
    ensures |r| <= |s|
    ensures r == [] || (!IsSpace(r[0]) && !IsSpace(r[|r| - 1]))
  {
    TrimEndPrefix(TrimStart(s));
    TrimEnd(TrimStart(s))
  }

  /** `trim` keeps a slice of its input and removes only whitespace around it. */
  lemma TrimSlice(s: string)
    ensures Leading(s) + |Trim(s)| <= |s|
    ensures Trim(s) == s[Leading(s)..Leading(s) + |Trim(s)|]
    ensures AllSpace(s[..Leading(s)]) && AllSpace(s[Leading(s) + |Trim(s)|..])
  {
    var t := TrimStart(s);
    TrimStartSuffix(s);
    TrimEndPrefix(t);
    assert s[Leading(s) + |Trim(s)|..] == t[|Trim(s)|..];
  }

  lemma TrimEmptyIffBlank(s: string)
    ensures Trim(s) == [] <==> AllSpace(s)
  {
    TrimSlice(s);
    if Trim(s) == [] {
      assert s == s[..Leading(s)] + s[Leading(s)..];
    }
  }

  lemma TrimOfTrimmed(s: string)
    requires s == [] || (!IsSpace(s[0]) && !IsSpace(s[|s| - 1]))
    ensures Trim(s) == s
  {
  }

  lemma TrimIdempotent(s: string)
    ensures Trim(Trim(s)) == Trim(s)
  {
    TrimOfTrimmed(Trim(s));
  }

  // ---------------------------------------------------------------- join and split

  /** Concatenation regroups freely (stated once, so that proofs need not rediscover it). */
  lemma ConcatAssoc<T>(x: seq<T>, y: seq<T>, z: seq<T>)
    ensures (x + y) + z == x + (y + z)
  {
  }

  /** Dropping the head of a concatenation drops it from the first part. */
  lemma TailOfConcat<T>(x: seq<T>, y: seq<T>)
    requires x != []
    ensures (x + y)[1..] == x[1..] + y
  {
  }

  /** A sequence is what comes before index `j`, the element there, and what comes after. */
  lemma AroundIndex<T>(s: seq<T>, j: nat)
    requires j < |s|
    ensures s == s[..j] + [s[j]] + s[j + 1..]
  {
  }

  /** `parts.join(sep)`. */
  function Join(parts: seq<string>, sep: string): (r: string)
    ensures parts == [] ==> r == []
  {
    if parts == [] then []
    else if |parts| == 1 then parts[0]
    else parts[0] + sep + Join(parts[1..], sep)
  }

  lemma JoinSnoc(parts: seq<string>, x: string, sep: string)
    ensures Join(parts + [x], sep) == if parts == [] then x else Join(parts, sep) + sep + x
  {
    if |parts| > 1 {
      assert (parts + [x])[1..] == parts[1..] + [x];
      JoinSnoc(parts[1..], x, sep);
    } else if |parts| == 1 {
      assert (parts + [x])[1..] == [x];
    }
  }

  /** `Join` of a prefix is a prefix of the `Join`. */
  lemma JoinPrefix(parts: seq<string>, n: nat, sep: string)
    requires n <= |parts|
    ensures StartsWith(Join(parts, sep), Join(parts[..n], sep))
  {
    if n == |parts| {
      assert parts[..n] == parts;
    } else {
      JoinPrefix(parts[..|parts| - 1], n, sep);
      assert parts[..|parts| - 1][..n] == parts[..n];
      assert parts == parts[..|parts| - 1] + [parts[|parts| - 1]];
      JoinSnoc(parts[..|parts| - 1], parts[|parts| - 1], sep);
    }
  }

  /**
   * `s.split(c)` for a one-character separator, or for a regular
   * expression that is a one-character class: the pieces between
   * consecutive separator characters, kept even when empty.
   */
  function SplitBy(s: string, isSep: char -> bool): (r: seq<string>)
    ensures |r| >= 1
    ensures forall k :: 0 <= k < |r| ==> forall j :: 0 <= j < |r[k]| ==> !isSep(r[k][j])
    decreases |s|
  {
    SplitFrom(s, isSep, 0, 0)
  }

  function SplitFrom(s: string, isSep: char -> bool, start: nat, i: nat): (r: seq<string>)
    requires start <= i <= |s|
    requires forall j :: start <= j < i ==> !isSep(s[j])
    ensures |r| >= 1
    ensures forall k :: 0 <= k < |r| ==> forall j :: 0 <= j < |r[k]| ==> !isSep(r[k][j])
    decreases |s| - i
  {
    if i == |s| then [s[start..]]
    else if isSep(s[i]) then [s[start..i]] + SplitFrom(s, isSep, i + 1, i + 1)
    else SplitFrom(s, isSep, start, i + 1)
  }

  /** Splitting at a character and joining with it again gives back the text. */
  lemma {:induction false} SplitFromJoin(s: string, c: char, isSep: char -> bool, start: nat, i: nat)
    requires forall x :: isSep(x) <==> x == c
    requires start <= i <= |s|
    requires forall j :: start <= j < i ==> s[j] != c
    ensures Join(SplitFrom(s, isSep, start, i), [c]) == s[start..]
    decreases |s| - i
  {
    if i == |s| {
    } else if s[i] == c {
      SplitFromJoin(s, c, isSep, i + 1, i + 1);
      assert s[start..] == s[start..i] + [c] + s[i + 1..];
    } else {
      SplitFromJoin(s, c, isSep, start, i + 1);
    }
  }

  lemma SplitJoin(s: string, c: char, isSep: char -> bool)
    requires forall x :: isSep(x) <==> x == c
    ensures Join(SplitBy(s, isSep), [c]) == s
  {
    SplitFromJoin(s, c, isSep, 0, 0);
  }

  /** Joining two non-empty lists of pieces is joining each and putting the separator between. */
  lemma {:induction false} JoinAppend(a: seq<string>, b: seq<string>, sep: string)
    requires a != [] && b != []
    ensures Join(a + b, sep) == Join(a, sep) + sep + Join(b, sep)
    decreases |a|
  {
    if |a| == 1 {
      assert (a + b)[1..] == b;
      assert (a + b)[0] == a[0];
    } else {
      JoinAppend(a[1..], b, sep);
      assert (a + b)[1..] == a[1..] + b;
      assert (a + b)[0] == a[0];
      calc {
        Join(a + b, sep);
        a[0] + sep + Join(a[1..] + b, sep);
        a[0] + sep + (Join(a[1..], sep) + sep + Join(b, sep));
        { ConcatAssoc(a[0] + sep, Join(a[1..], sep), sep + Join(b, sep)); }
        (a[0] + sep + Join(a[1..], sep)) + (sep + Join(b, sep));
      }
    }
  }

  /** A split position inside a stretch without separators can be moved forward. */
  lemma {:induction false} SplitFromSkip(s: string, isSep: char -> bool, start: nat, i: nat, j: nat)
    requires start <= i <= j <= |s|
    requires forall k :: start <= k < j ==> !isSep(s[k])
    ensures SplitFrom(s, isSep, start, i) == SplitFrom(s, isSep, start, j)
    decreases j - i
  {
    if i < j {
      SplitFromSkip(s, isSep, start, i + 1, j);
    }
  }

  /** A stretch without separators in `y` is one in `x + y`, shifted by `|x|`. */
  lemma ShiftNoSep(x: string, y: string, isSep: char -> bool, a: nat, b: nat)
    requires a <= b <= |y|
    requires forall k :: a <= k < b ==> !isSep(y[k])
    ensures forall k :: |x| + a <= k < |x| + b ==> !isSep((x + y)[k])
  {
    forall k | |x| + a <= k < |x| + b
      ensures !isSep((x + y)[k])
    {
      assert (x + y)[k] == y[k - |x|];
    }
  }

  /** Splitting after a prefix does not look at the prefix. */
  lemma {:induction false} SplitFromShift(x: string, y: string, isSep: char -> bool, a: nat, b: nat)
    requires a <= b <= |y|
    requires forall k :: a <= k < b ==> !isSep(y[k])
    ensures forall k :: |x| + a <= k < |x| + b ==> !isSep((x + y)[k])
    ensures SplitFrom(x + y, isSep, |x| + a, |x| + b) == SplitFrom(y, isSep, a, b)
    decreases |y| - b
  {
    ShiftNoSep(x, y, isSep, a, b);
    var s := x + y;
    if b == |y| {
      assert SplitFrom(y, isSep, a, b) == [y[a..]];
      assert SplitFrom(s, isSep, |x| + a, |x| + b) == [s[|x| + a..]];
      assert s[|x| + a..] == y[a..];
    } else if isSep(y[b]) {
      assert s[|x| + b] == y[b];
      SplitFromShift(x, y, isSep, b + 1, b + 1);
      assert s[|x| + a..|x| + b] == y[a..b];
    } else {
      assert s[|x| + b] == y[b];
      SplitFromShift(x, y, isSep, a, b + 1);
    }
  }

  /** A piece without separators, a separator, then the rest: the piece comes first. */
  lemma SplitJoinedStep(p: string, c: char, rest: string, isSep: char -> bool)
    requires forall x :: isSep(x) <==> x == c
    requires forall k :: 0 <= k < |p| ==> !isSep(p[k])
    ensures SplitBy((p + [c]) + rest, isSep) == [p] + SplitBy(rest, isSep)
  {
    var s := (p + [c]) + rest;
    assert s[0..|p|] == p && s[|p|] == c;
    assert forall k :: 0 <= k < |p| ==> s[k] == p[k];
    SplitFromSkip(s, isSep, 0, 0, |p|);
    assert SplitFrom(s, isSep, 0, |p|) == [s[0..|p|]] + SplitFrom(s, isSep, |p| + 1, |p| + 1);
    SplitFromShift(p + [c], rest, isSep, 0, 0);
  }

  /** Splitting pieces joined at a character none of them holds gives the pieces back. */
  lemma {:induction false} SplitJoined(parts: seq<string>, c: char, isSep: char -> bool)
    requires parts != []
    requires forall x :: isSep(x) <==> x == c
    requires forall k :: 0 <= k < |parts| ==> c !in parts[k]
    ensures SplitBy(Join(parts, [c]), isSep) == parts
    decreases |parts|
  {
    var s := Join(parts, [c]);
    var p := parts[0];
    assert forall k :: 0 <= k < |p| ==> !isSep(p[k]) by {
      forall k | 0 <= k < |p|
        ensures !isSep(p[k])
      {
        assert p[k] in p;
      }
    }
    if |parts| == 1 {
      SplitFromSkip(s, isSep, 0, 0, |s|);
      assert s[0..] == p;
    } else {
      var rest := Join(parts[1..], [c]);
      assert s == (p + [c]) + rest;
      SplitJoinedStep(p, c, rest, isSep);
      SplitJoined(parts[1..], c, isSep);
      assert parts == [p] + parts[1..];
    }
  }

  /** Replaces every character satisfying `p` by `sub` (a global one-class `replace`). */
  function ReplaceChars(s: string, p: char -> bool, sub: char): (r: string)
    ensures |r| == |s|
    ensures forall k :: 0 <= k < |s| ==> r[k] == (if p(s[k]) then sub else s[k])
  {
    if s == [] then [] else [if p(s[0]) then sub else s[0]] + ReplaceChars(s[1..], p, sub)
  }

  /** Deletes every character satisfying `p` (a global one-class `replace` with ''). */
  function DropChars(s: string, p: char -> bool): (r: string)
    ensures |r| <= |s|
    ensures forall k :: 0 <= k < |r| ==> !p(r[k])
    ensures forall c :: c in r ==> c in s
  {
    if s == [] then [] else (if p(s[0]) then [] else [s[0]]) + DropChars(s[1..], p)
  }

  lemma {:induction false} DropCharsAppend(a: string, b: string, p: char -> bool)
    ensures DropChars(a + b, p) == DropChars(a, p) + DropChars(b, p)
  {
    if a == [] {
      assert a + b == b;
    } else {
      DropCharsAppend(a[1..], b, p);
      assert (a + b)[0] == a[0];
      assert (a + b)[1..] == a[1..] + b;
      ConcatAssoc(if p(a[0]) then [] else [a[0]], DropChars(a[1..], p), DropChars(b, p));
    }
  }

  /** Removing characters that are all dropped leaves nothing. */
  lemma {:induction false} DropCharsAll(s: string, p: char -> bool)
    requires forall k :: 0 <= k < |s| ==> p(s[k])
    ensures DropChars(s, p) == []
  {
    if s != [] {
      DropCharsAll(s[1..], p);
    }
  }

  // ---------------------------------------------------------------- numbers

  function DigitChar(d: nat): (c: char)
    requires d < 10
    ensures IsDigit(c)
  {
    ('0' as int + d) as char
  }

  /** The decimal rendering of a natural number (`${n}`). */
  function NatToString(n: nat): (r: string)
    ensures |r| >= 1
    ensures forall k :: 0 <= k < |r| ==> IsDigit(r[k])
    ensures n < 10 <==> |r| == 1
    decreases n
  {
    if n < 10 then [DigitChar(n)] else NatToString(n / 10) + [DigitChar(n % 10)]
  }

  /** The value of a string of decimal digits (`parseInt` on digits). */
  function DigitsValue(s: string): nat
    requires forall k :: 0 <= k < |s| ==> IsDigit(s[k])
  {
    if s == [] then 0
    else
      assert IsDigit(s[|s| - 1]);
      DigitsValue(s[..|s| - 1]) * 10 + (s[|s| - 1] as int - '0' as int)
  }

  lemma {:induction false} NatToStringRoundTrip(n: nat)
    ensures DigitsValue(NatToString(n)) == n
    decreases n
  {
    if n >= 10 {
      NatToStringRoundTrip(n / 10);
      var s := NatToString(n);
      assert s[..|s| - 1] == NatToString(n / 10);
    }
  }

  lemma NatToStringInjective(m: nat, n: nat)
    requires NatToString(m) == NatToString(n)
    ensures m == n
  {
    NatToStringRoundTrip(m);
    NatToStringRoundTrip(n);
  }

  /** `String(n).padStart(2, '0')` for `n` below 100. */
  function Pad2(n: nat): (r: string)
    requires n < 100
    ensures |r| == 2 && IsDigit(r[0]) && IsDigit(r[1])
    ensures DigitsValue(r) == n
  {
    var r := [DigitChar(n / 10), DigitChar(n % 10)];
    assert r[..1] == [DigitChar(n / 10)] && r[..1][..0] == [];
    assert DigitsValue(r[..1]) == n / 10;
    r
  }

  // ---------------------------------------------------------------- UTF-16

  /** Number of UTF-16 code units of one code point. */
  function Units(c: char): nat { if c as int > 0xFFFF then 2 else 1 }

  /** `s.length`: UTF-16 code units, so a character outside the Basic Multilingual Plane counts twice. */
  function JsLen(s: string): (n: nat)
    ensures |s| <= n <= 2 * |s|
  {
    if s == [] then 0 else Units(s[0]) + JsLen(s[1..])
  }

  lemma JsLenAppend(a: string, b: string)
    ensures JsLen(a + b) == JsLen(a) + JsLen(b)
  {
    if a == [] {
      assert a + b == b;
    } else {
      assert (a + b)[0] == a[0];
      assert (a + b)[1..] == a[1..] + b;
      JsLenAppend(a[1..], b);
    }
  }

  /** `s.substring(0, n)`: the longest prefix of at most `n` code units. */
  function JsPrefix(s: string, n: nat): (r: string)
    ensures StartsWith(s, r)
    ensures JsLen(r) <= n
    ensures JsLen(s) <= n ==> r == s
    ensures |r| < |s| ==> JsLen(r) + Units(s[|r|]) > n
  {
    if s == [] || Units(s[0]) > n then []
    else
      var rest := JsPrefix(s[1..], n - Units(s[0]));
      assert ([s[0]] + rest)[1..] == rest;
      [s[0]] + rest
  }

  /** The UTF-16 code units of a code point, as numbers. */
  function CodeUnits(c: char): seq<int> {
    if c as int <= 0xFFFF then [c as int]
    else [0xD800 + (c as int - 0x10000) / 0x400, 0xDC00 + (c as int - 0x10000) % 0x400]
  }

  function Utf16(s: string): seq<int> {
    if s == [] then [] else CodeUnits(s[0]) + Utf16(s[1..])
  }

  /** Lexicographic order on number sequences, a prefix first. */
  predicate LexLe(a: seq<int>, b: seq<int>)
  {
    if a == [] then true
    else if b == [] then false
    else if a[0] != b[0] then a[0] < b[0]
    else LexLe(a[1..], b[1..])
  }

  /** The order `Array.prototype.sort` uses by default: by UTF-16 code units. */
  predicate StringLe(a: string, b: string) { LexLe(Utf16(a), Utf16(b)) }

  lemma LexLeTotal(a: seq<int>, b: seq<int>)
    ensures LexLe(a, b) || LexLe(b, a)
  {
  }

  lemma LexLeTrans(a: seq<int>, b: seq<int>, c: seq<int>)
    requires LexLe(a, b) && LexLe(b, c)
    ensures LexLe(a, c)
  {
  }

  lemma LexLeAntisym(a: seq<int>, b: seq<int>)
    requires LexLe(a, b) && LexLe(b, a)
    ensures a == b
  {
  }
}
