/**
 * The regular expressions of the speech normaliser (lib/text-normalization.ts),
 * each as a matcher for the leftmost scan of `Scan`, together with the
 * text that replaces a match (what `$1`, a callback or a literal produces).
 * None of the patterns can backtrack into a different match, so each
 * matcher reads the match length off the text directly.
 */
module TtsPatterns {
  import opened Wrappers
  import opened Strings
  import opened Scan

  /** One global `replace`: the pattern and the replacement of a match's text. */
  datatype Rule = Rule(m: Matcher, f: string -> string)

  function Delete(t: string): string { [] }

  predicate CharAt(s: string, i: nat, c: char) { i < |s| && s[i] == c }

  function NotChar(c: char): char -> bool { x => x != c }

  /** The text with its whitespace removed: what a listener "sees" apart from pauses. */
  function NoSpaces(t: string): string { DropChars(t, IsSpace) }

  /** Every match of `r` is replaced by a text at least `d` characters shorter. */
  ghost predicate ShrinksBy(r: Rule, d: nat) {
    forall s: string, j: nat :: MatchAt(s, r.m, j) ==> |r.f(MatchText(s, r.m, j))| + d <= r.m(s, j)
  }

  /** Every match of `r` is replaced by a text that differs from it in whitespace only. */
  ghost predicate KeepsText(r: Rule) {
    forall s: string, j: nat :: MatchAt(s, r.m, j) ==> NoSpaces(r.f(MatchText(s, r.m, j))) == NoSpaces(MatchText(s, r.m, j))
  }

  // ---------------------------------------------------------------- citations

  /** `\[출처\s*\d+\]` */
  function CitationKo(s: string, i: nat): nat {
    if OccursAt(s, "[출처", i) then
      var sp := RunLen(s, IsSpace, i + 3);
      var d := RunLen(s, IsDigit, i + 3 + sp);
      if d >= 1 && CharAt(s, i + 3 + sp + d, ']') then sp + d + 4 else 0
    else 0
  }

  /** `\[source\s*\d+\]` with the `i` flag (only ASCII letters fold for this word). */
  function CitationEn(s: string, i: nat): nat {
    if i + 7 <= |s| && s[i] == '[' && Lower(s[i + 1..i + 7]) == "source" then
      var sp := RunLen(s, IsSpace, i + 7);
      var d := RunLen(s, IsDigit, i + 7 + sp);
      if d >= 1 && CharAt(s, i + 7 + sp + d, ']') then sp + d + 8 else 0
    else 0
  }

  /** `\[\d+\]` */
  function CitationNum(s: string, i: nat): nat {
    if CharAt(s, i, '[') then
      var d := RunLen(s, IsDigit, i + 1);
      if d >= 1 && CharAt(s, i + 1 + d, ']') then d + 2 else 0
    else 0
  }

  function CitationRules(): seq<Rule> {
    [Rule(CitationKo, Delete), Rule(CitationEn, Delete), Rule(CitationNum, Delete)]
  }

  /** Every citation pattern matches at least three characters, all deleted. */
  lemma CitationsShrink()
    ensures forall k :: 0 <= k < |CitationRules()| ==> ShrinksBy(CitationRules()[k], 3)
  {
  }

  // ---------------------------------------------------------------- markdown

  function Fence(s: string, i: nat): nat { if OccursAt(s, "```", i) then 3 else 0 }

  /** ```` ```[\s\S]*?``` ````: up to the nearest closing fence. */
  function CodeBlock(s: string, i: nat): nat {
    if OccursAt(s, "```", i) then
      match IndexFrom(s, "```", i + 3)
      case Some(j) => j + 3 - i
      case None => 0
    else 0
  }

  /** The callback of the code-block rule: the block with every fence removed. */
  function StripFences(t: string): string { ReplaceAll(t, Fence, Delete).0 }

  /** `` `([^`]+)` `` */
  function InlineCode(s: string, i: nat): nat {
    if CharAt(s, i, '`') then
      var n := RunLen(s, NotChar('`'), i + 1);
      if n >= 1 && CharAt(s, i + 1 + n, '`') then n + 2 else 0
    else 0
  }

  /** `\*\*([^*]+)\*\*` and `__([^_]+)__` */
  function Bold(c: char): Matcher {
    (s: string, i: nat) =>
      if OccursAt(s, [c, c], i) then
        var n := RunLen(s, NotChar(c), i + 2);
        if n >= 1 && OccursAt(s, [c, c], i + 2 + n) then n + 4 else 0
      else 0
  }

  /** `(?<!\*)\*(?!\*)([^*]+)\*(?!\*)` and its `_` twin: a single marker on both sides. */
  function Italic(c: char): Matcher {
    (s: string, i: nat) =>
      if CharAt(s, i, c) && (i == 0 || s[i - 1] != c) then
        var n := RunLen(s, NotChar(c), i + 1);
        if n >= 1 && CharAt(s, i + 1 + n, c) && !CharAt(s, i + 2 + n, c) then n + 2 else 0
      else 0
  }

  /** `\[([^\]]+)\]\([^)]+\)` */
  function Link(s: string, i: nat): nat {
    if CharAt(s, i, '[') then
      var n := RunLen(s, NotChar(']'), i + 1);
      if n >= 1 && CharAt(s, i + 1 + n, ']') && CharAt(s, i + 2 + n, '(') then
        var u := RunLen(s, NotChar(')'), i + 3 + n);
        if u >= 1 && CharAt(s, i + 3 + n + u, ')') then n + u + 4 else 0
      else 0
    else 0
  }

  /** `^#{1,6}\s+` with the `m` flag: at a line start, one to six `#`, then whitespace (possibly line breaks). */
  function Heading(s: string, i: nat): nat {
    if i < |s| && (i == 0 || IsLineTerminator(s[i - 1])) then
      var h := RunLen(s, x => x == '#', i);
      var sp := RunLen(s, IsSpace, i + h);
      if 1 <= h <= 6 && sp >= 1 then h + sp else 0
    else 0
  }

  /** `$1` of the one-marker rules. */
  function Inner1(t: string): string { if |t| >= 2 then t[1..|t| - 1] else t }

  /** `$1` of the bold rules. */
  function Inner2(t: string): string { if |t| >= 4 then t[2..|t| - 2] else t }

  /** `$1` of the link rule: the text between the brackets. */
  function LinkText(t: string): string {
    if t == [] then t else t[1..1 + RunLen(t, NotChar(']'), 1)]
  }

  function MarkdownRules(): seq<Rule> {
    [Rule(CodeBlock, StripFences), Rule(InlineCode, Inner1), Rule(Bold('*'), Inner2), Rule(Bold('_'), Inner2),
     Rule(Italic('*'), Inner1), Rule(Italic('_'), Inner1), Rule(Link, LinkText), Rule(Heading, Delete)]
  }

  /** A scan that starts on a match replaces at least one. */
  lemma ReplaceCountsFirst(t: string, m: Matcher, f: string -> string)
    requires MatchAt(t, m, 0)
    ensures ReplaceAll(t, m, f).1 >= 1
  {
  }

  lemma CodeBlockShrinks()
    ensures ShrinksBy(Rule(CodeBlock, StripFences), 2)
  {
    forall s: string, j: nat | MatchAt(s, CodeBlock, j)
      ensures |StripFences(MatchText(s, CodeBlock, j))| + 2 <= CodeBlock(s, j)
    {
      var t := MatchText(s, CodeBlock, j);
      assert t[0..3] == s[j..j + 3] == "```";
      assert MatchAt(t, Fence, 0);
      ReplaceCountsFirst(t, Fence, Delete);
      ReplaceShrinks(t, Fence, Delete, 0, 3);
    }
  }

  lemma {:induction false} InlineShrinks()
    ensures ShrinksBy(Rule(InlineCode, Inner1), 2)
    ensures ShrinksBy(Rule(Bold('*'), Inner2), 2)
    ensures ShrinksBy(Rule(Bold('_'), Inner2), 2)
    ensures ShrinksBy(Rule(Italic('*'), Inner1), 2)
    ensures ShrinksBy(Rule(Italic('_'), Inner1), 2)
    ensures ShrinksBy(Rule(Heading, Delete), 2)
  {
  }

  lemma LinkShrinks()
    ensures ShrinksBy(Rule(Link, LinkText), 2)
  {
    forall s: string, j: nat | MatchAt(s, Link, j)
      ensures |LinkText(MatchText(s, Link, j))| + 2 <= Link(s, j)
    {
      var t := MatchText(s, Link, j);
      var n := RunLen(s, NotChar(']'), j + 1);
      RunLenShift(s, NotChar(']'), j, t, 1);
      assert RunLen(t, NotChar(']'), 1) <= n;
    }
  }

  /** A run inside a match is at most the run in the whole text. */
  lemma {:induction false} RunLenShift(s: string, p: char -> bool, j: nat, t: string, i: nat)
    requires j + |t| <= |s| && t == s[j..j + |t|]
    requires i <= |t|
    ensures RunLen(t, p, i) <= RunLen(s, p, j + i)
    decreases |t| - i
  {
    if i < |t| && p(t[i]) {
      assert s[j + i] == t[i];
      RunLenShift(s, p, j, t, i + 1);
    }
  }

  /** Every markdown rule shortens the text by at least two characters per match. */
  lemma MarkdownShrinks()
    ensures forall k :: 0 <= k < |MarkdownRules()| ==> ShrinksBy(MarkdownRules()[k], 2)
  {
    CodeBlockShrinks();
    InlineShrinks();
    LinkShrinks();
  }

  // ---------------------------------------------------------------- punctuation

  /** `([.!?])\s*`, `([,;])\s*` and `([。!?])\s*`: a mark and the whitespace after it. */
  function MarkThenSpace(marks: string): Matcher {
    (s: string, i: nat) => if i < |s| && s[i] in marks then 1 + RunLen(s, IsSpace, i + 1) else 0
  }

  /** `\s+([.!?,;])`: whitespace before a mark. */
  function SpaceThenMark(s: string, i: nat): nat {
    if i <= |s| then
      var n := RunLen(s, IsSpace, i);
      if n >= 1 && i + n < |s| && s[i + n] in ".!?,;" then n + 1 else 0
    else 0
  }

  /** `'$1 '` */
  function MarkSpace(t: string): string { if t == [] then t else [t[0]] + " " }

  /** `'$1'` of `\s+([.!?,;])` */
  function LastChar(t: string): string { if t == [] then t else [t[|t| - 1]] }

  function PunctuationRules(): seq<Rule> {
    [Rule(MarkThenSpace(".!?"), MarkSpace), Rule(MarkThenSpace(",;"), MarkSpace),
     Rule(SpaceThenMark, LastChar), Rule(MarkThenSpace("。!?"), MarkSpace)]
  }

  lemma NoSpacesAppend(a: string, b: string)
    ensures NoSpaces(a + b) == NoSpaces(a) + NoSpaces(b)
  {
    DropCharsAppend(a, b, IsSpace);
  }

  /** A non-space character followed by whitespace, or the reverse, has the view of the character. */
  lemma NoSpacesAround(c: char, sp: string, markFirst: bool)
    requires !IsSpace(c)
    requires forall k :: 0 <= k < |sp| ==> IsSpace(sp[k])
    ensures NoSpaces(if markFirst then [c] + sp else sp + [c]) == [c]
  {
    DropCharsAll(sp, IsSpace);
    NoSpacesAppend([c], sp);
    NoSpacesAppend(sp, [c]);
    assert NoSpaces([c]) == [c] by {
      assert [c][1..] == [];
    }
  }

  lemma MarkThenSpaceKeepsText(marks: string)
    requires forall k :: 0 <= k < |marks| ==> !IsSpace(marks[k])
    ensures KeepsText(Rule(MarkThenSpace(marks), MarkSpace))
  {
    var m := MarkThenSpace(marks);
    forall s: string, j: nat | MatchAt(s, m, j)
      ensures NoSpaces(MarkSpace(MatchText(s, m, j))) == NoSpaces(MatchText(s, m, j))
    {
      var t := MatchText(s, m, j);
      assert t == [s[j]] + s[j + 1..j + m(s, j)];
      NoSpacesAround(s[j], s[j + 1..j + m(s, j)], true);
      NoSpacesAround(s[j], " ", true);
    }
  }

  lemma SpaceThenMarkKeepsText()
    ensures KeepsText(Rule(SpaceThenMark, LastChar))
  {
    forall s: string, j: nat | MatchAt(s, SpaceThenMark, j)
      ensures NoSpaces(LastChar(MatchText(s, SpaceThenMark, j))) == NoSpaces(MatchText(s, SpaceThenMark, j))
    {
      var n := SpaceThenMark(s, j) - 1;
      var t := MatchText(s, SpaceThenMark, j);
      assert t == s[j..j + n] + [s[j + n]];
      NoSpacesAround(s[j + n], s[j..j + n], false);
      NoSpacesAround(s[j + n], [], true);
    }
  }

  /** `fixPunctuation` only moves whitespace around. */
  lemma PunctuationKeepsText()
    ensures forall k :: 0 <= k < |PunctuationRules()| ==> KeepsText(PunctuationRules()[k])
  {
    MarkThenSpaceKeepsText(".!?");
    MarkThenSpaceKeepsText(",;");
    MarkThenSpaceKeepsText("。!?");
    SpaceThenMarkKeepsText();
  }

  // ---------------------------------------------------------------- Korean

  const Particles: seq<string> := ["은", "는", "이", "가", "을", "를", "와", "과", "도", "만", "에", "에서", "한테", "께", "로", "으로"]

  const Counters: string := "개명번살원시분초층권병잔대"

  /** `\s+(particle)(?!\p{L})` with the `u` flag; `isLetter` is the Unicode letter category. */
  function ParticleLen(p: string, isLetter: char -> bool, s: string, i: nat): nat {
    if i <= |s| then
      var n := RunLen(s, IsSpace, i);
      if n >= 1 && OccursAt(s, p, i + n) && (i + n + |p| == |s| || !isLetter(s[i + n + |p|])) then n + |p| else 0
    else 0
  }

  function ParticleAfterSpace(p: string, isLetter: char -> bool): Matcher {
    (s: string, i: nat) => ParticleLen(p, isLetter, s, i)
  }

  /** `(\d+)(개|명|…|대)` */
  function NumberCounter(s: string, i: nat): nat {
    if i <= |s| then
      var n := RunLen(s, IsDigit, i);
      if n >= 1 && i + n < |s| && s[i + n] in Counters then n + 1 else 0
    else 0
  }

  /** `'$1 $2'` */
  function SpaceBeforeLast(t: string): string { if t == [] then t else t[..|t| - 1] + " " + [t[|t| - 1]] }

  /** `"([^"]+)"`; both quote characters of the class are the ASCII quote. */
  function Quoted(s: string, i: nat): nat {
    if CharAt(s, i, '"') then
      var n := RunLen(s, NotChar('"'), i + 1);
      if n >= 1 && CharAt(s, i + 1 + n, '"') then n + 2 else 0
    else 0
  }

  /** `'"$1"'` */
  function Requote(t: string): string { if |t| >= 2 then "\"" + t[1..|t| - 1] + "\"" else t }

  function KoreanRules(isLetter: char -> bool): seq<Rule> {
    seq(|Particles|, k requires 0 <= k < |Particles| => Rule(ParticleAfterSpace(Particles[k], isLetter), _ => Particles[k]))
    + [Rule(NumberCounter, SpaceBeforeLast), Rule(Quoted, Requote)]
  }

  lemma ParticleKeepsText(p: string, isLetter: char -> bool)
    requires NoSpace(p)
    ensures KeepsText(Rule(ParticleAfterSpace(p, isLetter), _ => p))
  {
    var m := ParticleAfterSpace(p, isLetter);
    forall s: string, j: nat | MatchAt(s, m, j)
      ensures NoSpaces(p) == NoSpaces(MatchText(s, m, j))
    {
      ParticleText(p, isLetter, s, j);
    }
  }

  lemma ParticleText(p: string, isLetter: char -> bool, s: string, j: nat)
    requires 0 < ParticleLen(p, isLetter, s, j)
    ensures j + ParticleLen(p, isLetter, s, j) <= |s|
    ensures NoSpaces(s[j..j + ParticleLen(p, isLetter, s, j)]) == NoSpaces(p)
  {
    var n := RunLen(s, IsSpace, j);
    assert OccursAt(s, p, j + n);
    var sp := s[j..j + n];
    assert s[j..j + n + |p|] == sp + p;
    DropCharsAll(sp, IsSpace);
    NoSpacesAppend(sp, p);
  }

  lemma NumberCounterKeepsText()
    ensures KeepsText(Rule(NumberCounter, SpaceBeforeLast))
  {
    forall s: string, j: nat | MatchAt(s, NumberCounter, j)
      ensures NoSpaces(SpaceBeforeLast(MatchText(s, NumberCounter, j))) == NoSpaces(MatchText(s, NumberCounter, j))
    {
      var t := MatchText(s, NumberCounter, j);
      var digits, c := t[..|t| - 1], t[|t| - 1];
      assert t == digits + [c];
      NoSpacesAppend(digits + " ", [c]);
      NoSpacesAppend(digits, " ");
      NoSpacesAppend(digits, [c]);
      DropCharsAll(" ", IsSpace);
    }
  }

  /** The quote rule writes back exactly what it matched. */
  lemma RequoteIsIdentity(s: string, j: nat)
    requires MatchAt(s, Quoted, j)
    ensures Requote(MatchText(s, Quoted, j)) == MatchText(s, Quoted, j)
  {
    var t := MatchText(s, Quoted, j);
    assert t[0] == '"' && t[|t| - 1] == '"';
    assert t == [t[0]] + t[1..|t| - 1] + [t[|t| - 1]];
  }

  /** `normalizeKoreanText` only moves whitespace around. */
  lemma KoreanKeepsText(isLetter: char -> bool)
    ensures forall k :: 0 <= k < |KoreanRules(isLetter)| ==> KeepsText(KoreanRules(isLetter)[k])
  {
    var rules := KoreanRules(isLetter);
    forall k | 0 <= k < |rules|
      ensures KeepsText(rules[k])
    {
      if k < |Particles| {
        assert NoSpace(Particles[k]);
        ParticleKeepsText(Particles[k], isLetter);
      } else if k == |Particles| {
        NumberCounterKeepsText();
      } else {
        forall s: string, j: nat | MatchAt(s, Quoted, j)
          ensures NoSpaces(Requote(MatchText(s, Quoted, j))) == NoSpaces(MatchText(s, Quoted, j))
        {
          RequoteIsIdentity(s, j);
        }
      }
    }
  }

  // ---------------------------------------------------------------- fillers

  const Demonstratives: seq<string> := ["그거", "그게", "이거", "저거", "이게"]

  /** `^(그거|그게|이거|저거|이게)\s` without the `m` flag: only at the very start. */
  function DemonstrativeStart(s: string, i: nat): nat {
    if i == 0 && |s| >= 3 && s[..2] in Demonstratives && IsSpace(s[2]) then 3 else 0
  }

  /** `(근데|그런데)\s+` */
  function Conjunction(s: string, i: nat): nat {
    if OccursAt(s, "근데", i) && RunLen(s, IsSpace, i + 2) >= 1 then 2 + RunLen(s, IsSpace, i + 2)
    else if OccursAt(s, "그런데", i) && RunLen(s, IsSpace, i + 3) >= 1 then 3 + RunLen(s, IsSpace, i + 3)
    else 0
  }

  /** `\?$` without the `m` flag: a question mark that ends the text. */
  function QuestionEnd(s: string, i: nat): nat {
    if i + 1 == |s| && s[i] == '?' then 1 else 0
  }

  /** `'$1 어... '` */
  function Hesitate(t: string): string { (if StartsWith(t, "근데") then "근데" else "그런데") + " 어... " }

  function FillerRules(): seq<Rule> {
    [Rule(DemonstrativeStart, _ => "음, "), Rule(Conjunction, Hesitate), Rule(QuestionEnd, _ => "? 응?")]
  }

  /**
   * The first filler replaces the whole match, so the demonstrative that
   * opened the text is lost along with its space.
   */
  lemma DemonstrativeReplaced(s: string)
    requires |s| >= 3 && s[..2] in Demonstratives && IsSpace(s[2])
    ensures ReplaceFirst(s, FillerRules()[0].m, FillerRules()[0].f) == "음, " + s[3..]
  {
    assert MatchAt(s, DemonstrativeStart, 0);
  }

  // ---------------------------------------------------------------- whitespace cleanup

  /** `\s{2,}` */
  function SpaceRun(): Matcher { RunOf(IsSpace, 2) }

  /** `^\s+` with the `m` flag. */
  function LineStartSpace(s: string, i: nat): nat {
    if i < |s| && (i == 0 || IsLineTerminator(s[i - 1])) then RunLen(s, IsSpace, i) else 0
  }

  /** Position `j` ends a line: the end of the text or a line terminator. */
  predicate LineEnd(s: string, j: nat) { j == |s| || (j < |s| && IsLineTerminator(s[j])) }

  /** The longest `n <= max` for which whitespace at `i` of length `n` reaches a line end. */
  function LineEndLen(s: string, i: nat, max: nat): (n: nat)
    requires i + max <= |s|
    ensures n <= max
    ensures n > 0 ==> LineEnd(s, i + n)
    ensures forall j :: i + n < j <= i + max ==> !LineEnd(s, j)
  {
    if max == 0 then 0
    else if LineEnd(s, i + max) then max
    else LineEndLen(s, i, max - 1)
  }

  /** `\s+$` with the `m` flag: whitespace up to the end of a line, backtracking off line breaks. */
  function LineEndSpace(s: string, i: nat): nat {
    if i <= |s| then LineEndLen(s, i, RunLen(s, IsSpace, i)) else 0
  }

  function OneSpace(t: string): string { " " }
}
