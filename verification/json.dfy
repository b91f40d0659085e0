/**
 * The part of `JSON.stringify` and `JSON.parse` the chat stream relies on:
 * string literals. `JSON.stringify` escapes the quote, the backslash and
 * every control character, so an encoded string never holds a raw line
 * break, and parsing the literal gives the string back.
 */
module Json {
  import opened Wrappers
  import opened Strings

  function HexDigit(d: nat): (c: char)
    requires d < 16
  {
    if d < 10 then ('0' as int + d) as char else ('a' as int + d - 10) as char
  }

  function HexValue(c: char): Option<nat> {
    if '0' <= c <= '9' then Some(c as int - '0' as int)
    else if 'a' <= c <= 'f' then Some(c as int - 'a' as int + 10)
    else if 'A' <= c <= 'F' then Some(c as int - 'A' as int + 10)
    else None
  }

  lemma HexDigitValue(d: nat)
    requires d < 16
    ensures HexValue(HexDigit(d)) == Some(d)
  {
  }

  /** How `JSON.stringify` writes one character inside a string literal. */
  function EscapeChar(c: char): (r: string)
    ensures |r| >= 1
    ensures '\n' !in r && '\r' !in r
  {
    if c == '"' then "\\\""
    else if c == '\\' then "\\\\"
    else if c == '\n' then "\\n"
    else if c == '\r' then "\\r"
    else if c == '\t' then "\\t"
    else if c == '\U{0008}' then "\\b"
    else if c == '\U{000C}' then "\\f"
    else if c < ' ' then "\\u00" + [HexDigit(c as int / 16), HexDigit(c as int % 16)]
    else [c]
  }

  function Escape(s: string): (r: string)
    ensures '\n' !in r && '\r' !in r
  {
    if s == [] then [] else EscapeChar(s[0]) + Escape(s[1..])
  }

  /** The literal `JSON.stringify(s)`. */
  function Quote(s: string): (r: string)
    ensures '\n' !in r
  {
    "\"" + Escape(s) + "\""
  }

  /** Four hexadecimal digits as a code point; surrogate halves are not decoded. */
  function Hex4(t: string): Option<char>
    requires |t| == 4
  {
    match (HexValue(t[0]), HexValue(t[1]), HexValue(t[2]), HexValue(t[3]))
    case (Some(a), Some(b), Some(c), Some(d)) =>
      var v := ((a * 16 + b) * 16 + c) * 16 + d;
      if v < 0xD800 || 0xE000 <= v < 0x110000 then Some(v as char) else None
    case _ => None
  }

  function Prepend(c: char, r: Option<(string, string)>): Option<(string, string)> {
    match r
    case None => None
    case Some((d, rest)) => Some(([c] + d, rest))
  }

  /**
   * `JSON.parse` of a string literal, after its opening quote: the decoded
   * text and what follows the closing quote, or `None` when the literal is
   * malformed.
   */
  function Unquote(t: string): Option<(string, string)>
    decreases |t|
  {
    if t == [] then None
    else if t[0] == '"' then Some(([], t[1..]))
    else if t[0] == '\\' then
      if |t| < 2 then None
      else if t[1] == 'u' then
        if |t| < 6 then None
        else match Hex4(t[2..6])
          case None => None
          case Some(c) => Prepend(c, Unquote(t[6..]))
      else
        var e := t[1];
        var c :=
          if e == '"' then Some('"') else if e == '\\' then Some('\\') else if e == '/' then Some('/')
          else if e == 'n' then Some('\n') else if e == 'r' then Some('\r') else if e == 't' then Some('\t')
          else if e == 'b' then Some('\U{0008}') else if e == 'f' then Some('\U{000C}') else None;
        if c.None? then None else Prepend(c.value, Unquote(t[2..]))
    else if t[0] < ' ' then None
    else Prepend(t[0], Unquote(t[1..]))
  }

  /** Decoding one escaped character consumes exactly its escape. */
  lemma UnquoteEscapeChar(c: char, u: string)
    ensures Unquote(EscapeChar(c) + u) == Prepend(c, Unquote(u))
  {
    var t := EscapeChar(c) + u;
    if c == '"' || c == '\\' || c == '\n' || c == '\r' || c == '\t' || c == '\U{0008}' || c == '\U{000C}' {
      assert t[0] == '\\' && t[2..] == u;
    } else if c < ' ' {
      var n := c as int;
      HexDigitValue(n / 16);
      HexDigitValue(n % 16);
      assert t[0] == '\\' && t[1] == 'u';
      assert t[2..6] == ['0', '0', HexDigit(n / 16), HexDigit(n % 16)];
      assert Hex4(t[2..6]) == Some(c);
      assert t[6..] == u;
    } else {
      assert t[0] == c && t[1..] == u;
    }
  }

  /** Parsing what `JSON.stringify` wrote gives back the string and leaves the rest of the text. */
  lemma {:induction false} UnquoteEscape(s: string, rest: string)
    ensures Unquote(Escape(s) + "\"" + rest) == Some((s, rest))
  {
    if s == [] {
      assert Escape(s) + "\"" + rest == "\"" + rest;
    } else {
      UnquoteEscape(s[1..], rest);
      assert Escape(s) + "\"" + rest == EscapeChar(s[0]) + (Escape(s[1..]) + "\"" + rest);
      UnquoteEscapeChar(s[0], Escape(s[1..]) + "\"" + rest);
      assert [s[0]] + s[1..] == s;
    }
  }

  /** `Quote` is a literal `Unquote` reads back exactly. */
  lemma QuoteRoundTrip(s: string, rest: string)
    ensures Quote(s)[0] == '"'
    ensures Unquote(Quote(s)[1..] + rest) == Some((s, rest))
  {
    assert Quote(s)[1..] + rest == Escape(s) + "\"" + rest;
    UnquoteEscape(s, rest);
  }

  lemma QuoteInjective(a: string, b: string)
    requires Quote(a) == Quote(b)
    ensures a == b
  {
    QuoteRoundTrip(a, []);
    QuoteRoundTrip(b, []);
  }
}
