/**
 * A small `json_encode` over the modelled PHP values, with PHP's default
 * flags: `/` is escaped, and every non-ASCII character is written as a
 * `\uXXXX` escape (a UTF-16 surrogate pair above U+FFFF) in lower-case hex.
 * The string decoder follows section 7 of RFC 8259 and is the encoder's
 * partner: every encoded string decodes back to itself.
 */
module Json {
  import opened Wrappers
  import opened PhpValues

  // ---------------------------------------------------------------------
  // Hexadecimal

  function HexDigit(d: nat): (c: char)
    requires d < 16
  {
    if d < 10 then ('0' as int + d) as char else ('a' as int + d - 10) as char
  }

  function HexDigitValue(c: char): Option<nat> {
    if '0' <= c <= '9' then Some(c as int - '0' as int)
    else if 'a' <= c <= 'f' then Some(c as int - 'a' as int + 10)
    else if 'A' <= c <= 'F' then Some(c as int - 'A' as int + 10)
    else None
  }

  /** Four lower-case hex digits, most significant first. */
  function Hex4(n: nat): (r: string)
    requires n < 0x10000
    ensures |r| == 4
  {
    [HexDigit(n / 16 / 16 / 16), HexDigit(n / 16 / 16 % 16), HexDigit(n / 16 % 16), HexDigit(n % 16)]
  }

  /** The value of the four hex digits that start `t`, if there are four. */
  function ParseHex4(t: string): (r: Option<nat>)
    ensures r.Some? ==> r.value < 0x10000
  {
    if |t| < 4 then None
    else match (HexDigitValue(t[0]), HexDigitValue(t[1]), HexDigitValue(t[2]), HexDigitValue(t[3]))
      case (Some(a), Some(b), Some(c), Some(d)) =>
        assert a < 16 && b < 16 && c < 16 && d < 16;
        Some(((a * 16 + b) * 16 + c) * 16 + d)
      case _ => None
  }

  lemma HexDigitRoundTrip(d: nat)
    requires d < 16
    ensures HexDigitValue(HexDigit(d)) == Some(d)
  {
  }

  lemma ParseHex4OfHex4(n: nat, rest: string)
    requires n < 0x10000
    ensures ParseHex4(Hex4(n) + rest) == Some(n)
  {
    var t := Hex4(n) + rest;
    var q1 := n / 16;
    var q2 := q1 / 16;
    var q3 := q2 / 16;
    assert q3 < 16;
    HexDigitRoundTrip(q3);
    HexDigitRoundTrip(q2 % 16);
    HexDigitRoundTrip(q1 % 16);
    HexDigitRoundTrip(n % 16);
    assert t[0] == HexDigit(q3);
    assert t[1] == HexDigit(q2 % 16);
    assert t[2] == HexDigit(q1 % 16);
    assert t[3] == HexDigit(n % 16);
    assert q2 == q3 * 16 + q2 % 16;
    assert q1 == q2 * 16 + q1 % 16;
    assert n == q1 * 16 + n % 16;
  }

  // ---------------------------------------------------------------------
  // Strings

  const Backspace: char := '\U{0008}'
  const FormFeed: char := '\U{000C}'

  /** Start of a UTF-16 surrogate pair that encodes a character above U+FFFF. */
  function HighSurrogate(c: char): nat
    requires c as int >= 0x10000
  {
    0xD800 + (c as int - 0x10000) / 0x400
  }

  function LowSurrogate(c: char): nat
    requires c as int >= 0x10000
  {
    0xDC00 + (c as int - 0x10000) % 0x400
  }

  /** How `json_encode` writes one character of a string. */
  function EscapeChar(c: char): string {
    if c == '"' then "\\\""
    else if c == '\\' then "\\\\"
    else if c == '/' then "\\/"
    else if c == Backspace then "\\b"
    else if c == FormFeed then "\\f"
    else if c == '\n' then "\\n"
    else if c == '\r' then "\\r"
    else if c == '\t' then "\\t"
    else if c as int < 0x20 then "\\u" + Hex4(c as int)
    else if c as int < 0x80 then [c]
    else if c as int < 0x10000 then "\\u" + Hex4(c as int)
    else "\\u" + Hex4(HighSurrogate(c)) + "\\u" + Hex4(LowSurrogate(c))
  }

  function EscapeString(s: string): string
    decreases |s|
  {
    if s == [] then "" else EscapeChar(s[0]) + EscapeString(s[1..])
  }

  /** `json_encode` of a string. */
  function Quote(s: string): string {
    "\"" + EscapeString(s) + "\""
  }

  function Prepend(c: char, r: Option<string>): Option<string> {
    match r
    case Some(s) => Some([c] + s)
    case None => None
  }

  /** The character a simple two-character escape `\e` stands for. */
  function SimpleEscape(e: char): Option<char> {
    if e == '"' || e == '\\' || e == '/' then Some(e)
    else if e == 'b' then Some(Backspace)
    else if e == 'f' then Some(FormFeed)
    else if e == 'n' then Some('\n')
    else if e == 'r' then Some('\r')
    else if e == 't' then Some('\t')
    else None
  }

  /**
   * Decodes the body of a JSON string (the text between the quotes).
   * An unescaped quote, an unescaped control character below U+0020, an
   * unknown escape, or a lone surrogate is an error.
   */
  function Unescape(t: string): Option<string>
    decreases |t|
  {
    if t == [] then Some("")
    else if t[0] == '"' || t[0] as int < 0x20 then None
    else if t[0] != '\\' then Prepend(t[0], Unescape(t[1..]))
    else if |t| < 2 then None
    else if SimpleEscape(t[1]).Some? then Prepend(SimpleEscape(t[1]).value, Unescape(t[2..]))
    else if t[1] != 'u' then None
    else match ParseHex4(t[2..])
      case None => None
      case Some(h) =>
        if 0xDC00 <= h < 0xE000 then None
        else if h < 0xD800 || 0xE000 <= h then Prepend(h as char, Unescape(t[6..]))
        else if |t| < 12 || t[6] != '\\' || t[7] != 'u' then None
        else match ParseHex4(t[8..])
          case None => None
          case Some(l) =>
            if 0xDC00 <= l < 0xE000 then
              Prepend((0x10000 + (h - 0xD800) * 0x400 + (l - 0xDC00)) as char, Unescape(t[12..]))
            else None
  }

  /** Decodes a JSON string literal, quotes included. */
  function Unquote(t: string): Option<string> {
    if |t| >= 2 && t[0] == '"' && t[|t| - 1] == '"' then Unescape(t[1..|t| - 1]) else None
  }

  lemma SurrogatesRecombine(c: char)
    requires c as int >= 0x10000
    ensures 0xD800 <= HighSurrogate(c) < 0xDC00
    ensures 0xDC00 <= LowSurrogate(c) < 0xE000
    ensures 0x10000 + (HighSurrogate(c) - 0xD800) * 0x400 + (LowSurrogate(c) - 0xDC00) == c as int
  {
    var v := c as int - 0x10000;
    assert v < 0x100000;
    assert v / 0x400 * 0x400 + v % 0x400 == v;
  }

  predicate HasSimpleEscape(c: char) {
    c == '"' || c == '\\' || c == '/' || c == Backspace || c == FormFeed || c == '\n' || c == '\r' || c == '\t'
  }

  lemma UnescapeSimpleEscape(c: char, rest: string)
    requires HasSimpleEscape(c)
    ensures Unescape(EscapeChar(c) + rest) == Prepend(c, Unescape(rest))
  {
    var t := EscapeChar(c) + rest;
    assert |EscapeChar(c)| == 2 && EscapeChar(c)[0] == '\\';
    assert SimpleEscape(t[1]) == Some(c);
    assert t[2..] == rest;
  }

  lemma UnescapeBmpEscape(c: char, rest: string)
    requires !HasSimpleEscape(c)
    requires c as int < 0x20 || 0x80 <= c as int < 0x10000
    ensures Unescape(EscapeChar(c) + rest) == Prepend(c, Unescape(rest))
  {
    var t := EscapeChar(c) + rest;
    assert EscapeChar(c) == "\\u" + Hex4(c as int);
    assert t[2..] == Hex4(c as int) + rest;
    ParseHex4OfHex4(c as int, rest);
    assert t[6..] == rest;
  }

  lemma UnescapeSurrogatePair(c: char, rest: string)
    requires c as int >= 0x10000
    ensures Unescape(EscapeChar(c) + rest) == Prepend(c, Unescape(rest))
  {
    SurrogatesRecombine(c);
    var hi := Hex4(HighSurrogate(c));
    var lo := Hex4(LowSurrogate(c));
    var t := EscapeChar(c) + rest;
    assert t == "\\u" + hi + "\\u" + lo + rest;
    assert t[2..] == hi + ("\\u" + lo + rest);
    ParseHex4OfHex4(HighSurrogate(c), "\\u" + lo + rest);
    assert t[8..] == lo + rest;
    ParseHex4OfHex4(LowSurrogate(c), rest);
    assert t[12..] == rest;
  }

  /** Decoding the escape of one character yields that character, whatever follows. */
  lemma UnescapeEscapeChar(c: char, rest: string)
    ensures Unescape(EscapeChar(c) + rest) == Prepend(c, Unescape(rest))
  {
    if HasSimpleEscape(c) {
      UnescapeSimpleEscape(c, rest);
    } else if c as int < 0x20 || 0x80 <= c as int < 0x10000 {
      UnescapeBmpEscape(c, rest);
    } else if c as int < 0x80 {
      var t := EscapeChar(c) + rest;
      assert EscapeChar(c) == [c];
      assert t[1..] == rest;
    } else {
      UnescapeSurrogatePair(c, rest);
    }
  }

  lemma {:induction false} UnescapeEscapeString(s: string)
    ensures Unescape(EscapeString(s)) == Some(s)
    decreases |s|
  {
    if s != [] {
      UnescapeEscapeString(s[1..]);
      UnescapeEscapeChar(s[0], EscapeString(s[1..]));
      assert [s[0]] + s[1..] == s;
    }
  }

  /** The string encoder's round trip: every encoded string decodes back to itself. */
  lemma QuoteRoundTrip(s: string)
    ensures Unquote(Quote(s)) == Some(s)
  {
    var q := Quote(s);
    assert q[1..|q| - 1] == EscapeString(s);
    UnescapeEscapeString(s);
  }

  /** Every character `json_encode` writes for a string is ASCII from U+0020 to U+007F: no control character below U+0020 is left unescaped. */
  lemma {:induction false} EscapeStringIsAscii(s: string)
    ensures forall i :: 0 <= i < |EscapeString(s)| ==> 0x20 <= EscapeString(s)[i] as int < 0x80
    decreases |s|
  {
    if s != [] {
      EscapeStringIsAscii(s[1..]);
    }
  }

  /** A string of lower-case letters is written as it is. */
  lemma {:induction false} EscapeLettersUnchanged(s: string)
    requires forall i :: 0 <= i < |s| ==> IsLowerLetter(s[i])
    ensures EscapeString(s) == s
    decreases |s|
  {
    if s != [] {
      EscapeLettersUnchanged(s[1..]);
      assert [s[0]] + s[1..] == s;
    }
  }

  // ---------------------------------------------------------------------
  // Values

  /** Joins the parts with commas. */
  function JoinCommas(parts: seq<string>): string
    decreases |parts|
  {
    if parts == [] then "" else if |parts| == 1 then parts[0] else parts[0] + "," + JoinCommas(parts[1..])
  }

  /** `json_encode` of a modelled value; a list array becomes a JSON array. */
  function Encode(v: Value): string
    decreases v
  {
    match v
    case Null => "null"
    case Bool(b) => if b then "true" else "false"
    case Int(i) => IntToString(i)
    case Str(s) => Quote(s)
    case Arr(items) => "[" + JoinCommas(seq(|items|, k requires 0 <= k < |items| => Encode(items[k]))) + "]"
  }

  /** `json_encode` of an associative array with string keys, a JSON object. */
  function EncodeObject(members: seq<(string, Value)>): string {
    "{" + JoinCommas(seq(|members|, k requires 0 <= k < |members| => Quote(members[k].0) + ":" + Encode(members[k].1))) + "}"
  }
}
