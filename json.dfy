/**
 * `JSON.stringify` applied to a string, as the source uses it to write module
 * specifiers, export ids and export names into generated code: the string
 * between double quotes, with the escapes of QuoteJSONString (section 25.5.2.3
 * of ECMA-262). A `char` here is a Unicode scalar value, so the lone-surrogate
 * case of that algorithm cannot arise.
 */
module Json {
  import opened Common

  const HexDigits: string := "0123456789abcdef"

  /** The escape QuoteJSONString writes for one code point. */
  function EscapeChar(c: char): (r: string)
    ensures |r| >= 1
    ensures r[0] == '\\' <==> |r| > 1
  {
    if c == '\U{8}' then "\\b"
    else if c == '\t' then "\\t"
    else if c == '\n' then "\\n"
    else if c == '\U{C}' then "\\f"
    else if c == '\r' then "\\r"
    else if c == '"' then "\\\""
    else if c == '\\' then "\\\\"
    else if (c as int) < 0x20 then
      "\\u00" + [HexDigits[(c as int) / 16], HexDigits[(c as int) % 16]]
    else [c]
  }

  function EscapeAll(s: string): string {
    if s == [] then [] else EscapeChar(s[0]) + EscapeAll(s[1..])
  }

  /** `JSON.stringify(s)` for a string `s`. */
  function Quote(s: string): (r: string)
    ensures |r| >= 2 && r[0] == '"' && r[|r| - 1] == '"'
  {
    "\"" + EscapeAll(s) + "\""
  }

  /** The value of a lower- or upper-case hexadecimal digit. */
  function HexValue(c: char): Option<nat> {
    if '0' <= c <= '9' then Some(c as int - '0' as int)
    else if 'a' <= c <= 'f' then Some(c as int - 'a' as int + 10)
    else if 'A' <= c <= 'F' then Some(c as int - 'A' as int + 10)
    else None
  }

  /** Code point of four hexadecimal digits, if they spell a scalar value. */
  function Hex4(s: string): (r: Option<char>)
    requires |s| == 4
  {
    var h0, h1, h2, h3 := HexValue(s[0]), HexValue(s[1]), HexValue(s[2]), HexValue(s[3]);
    if h0.None? || h1.None? || h2.None? || h3.None? then None
    else
      var v := ((h0.value * 16 + h1.value) * 16 + h2.value) * 16 + h3.value;
      if v < 0xD800 || 0xE000 <= v < 0x11_0000 then Some(v as char) else None
  }

  /** The character a two-character escape `\e` stands for. */
  function SimpleEscape(e: char): Option<char> {
    if e == '"' then Some('"')
    else if e == '\\' then Some('\\')
    else if e == '/' then Some('/')
    else if e == 'b' then Some('\U{8}')
    else if e == 'f' then Some('\U{C}')
    else if e == 'n' then Some('\n')
    else if e == 'r' then Some('\r')
    else if e == 't' then Some('\t')
    else None
  }

  /**
   * The first character a JSON string body denotes and how many characters of
   * the body spell it, or `None` when the body does not start well formed.
   */
  function UnescapeOne(s: string): (r: Option<(char, nat)>)
    requires |s| > 0
    ensures r.Some? ==> 1 <= r.value.1 <= |s|
  {
    if s[0] == '"' || (s[0] as int) < 0x20 then None
    else if s[0] != '\\' then Some((s[0], 1))
    else if |s| < 2 then None
    else if SimpleEscape(s[1]).Some? then Some((SimpleEscape(s[1]).value, 2))
    else if s[1] == 'u' && |s| >= 6 && Hex4(s[2..6]).Some? then Some((Hex4(s[2..6]).value, 6))
    else None
  }

  /**
   * The string a JSON string literal's body denotes (the reading `JSON.parse`
   * gives it), or `None` when the body is not well formed: a bare `"`, a bare
   * control character or an unknown escape.
   */
  function Unescape(s: string): (r: Option<string>)
    decreases |s|
  {
    if s == [] then Some([])
    else
      match UnescapeOne(s)
      case None => None
      case Some((c, n)) =>
        var rest := Unescape(s[n..]);
        if rest.None? then None else Some([c] + rest.value)
  }

  /** The string a JSON string literal denotes, quotes included. */
  function Unquote(q: string): Option<string> {
    if |q| >= 2 && q[0] == '"' && q[|q| - 1] == '"' then Unescape(q[1..|q| - 1])
    else None
  }

  lemma HexDigitValue(d: nat)
    requires d < 16
    ensures HexValue(HexDigits[d]) == Some(d)
  {
  }

  /** Reading back a `\u00xx` escape of a control character. */
  lemma UnescapeControl(c: char, rest: string)
    requires (c as int) < 0x20 && |EscapeChar(c)| == 6
    ensures UnescapeOne(EscapeChar(c) + rest) == Some((c, 6))
  {
    var e := EscapeChar(c) + rest;
    var v := c as int;
    HexDigitValue(v / 16);
    HexDigitValue(v % 16);
    assert e[2..6] == "00" + [HexDigits[v / 16], HexDigits[v % 16]];
    assert Hex4(e[2..6]) == Some(c);
  }

  /** The escape of one code point reads back as that code point. */
  lemma UnescapeOneEscapeChar(c: char, rest: string)
    ensures UnescapeOne(EscapeChar(c) + rest) == Some((c, |EscapeChar(c)|))
  {
    if |EscapeChar(c)| == 6 {
      UnescapeControl(c, rest);
    }
  }

  /** Reading back the escape of one code point, followed by anything. */
  lemma UnescapeChar(c: char, rest: string)
    ensures Unescape(EscapeChar(c) + rest) ==
      if Unescape(rest).None? then None else Some([c] + Unescape(rest).value)
  {
    var e := EscapeChar(c) + rest;
    UnescapeOneEscapeChar(c, rest);
    assert e[|EscapeChar(c)|..] == rest;
  }

  /** `JSON.parse(JSON.stringify(s)) === s` for every string `s`. */
  lemma {:induction false} UnescapeEscapeAll(s: string)
    ensures Unescape(EscapeAll(s)) == Some(s)
  {
    if s != [] {
      UnescapeEscapeAll(s[1..]);
      UnescapeChar(s[0], EscapeAll(s[1..]));
      assert [s[0]] + s[1..] == s;
    }
  }

  lemma UnquoteQuote(s: string)
    ensures Unquote(Quote(s)) == Some(s)
  {
    var q := Quote(s);
    assert q[1..|q| - 1] == EscapeAll(s);
    UnescapeEscapeAll(s);
  }

  /** Different strings quote differently. */
  lemma QuoteInjective(s: string, t: string)
    requires Quote(s) == Quote(t)
    ensures s == t
  {
    UnquoteQuote(s);
    UnquoteQuote(t);
  }

  /** An escaped string is a single line: no raw line feed survives. */
  lemma {:induction false} EscapeAllNoNewline(s: string)
    ensures '\n' !in EscapeAll(s)
  {
    if s != [] {
      EscapeAllNoNewline(s[1..]);
      var c := s[0];
      assert '\n' !in EscapeChar(c);
    }
  }

  lemma QuoteNoNewline(s: string)
    ensures '\n' !in Quote(s)
  {
    EscapeAllNoNewline(s);
  }
}
