/** The few JavaScript value semantics the handler relies on. */
module Js {
  import opened Wrappers

  /** A property value that the handler reads and passes on without
      checking it: either a string or `undefined`. */
  datatype Value = Undefined | Str(s: string)

  /** What a `Value` becomes when it is concatenated to a string with `+`
      or interpolated into a template literal. */
  function Display(v: Value): string {
    match v
    case Undefined => "undefined"
    case Str(s) => s
  }

  /** A character that `JSON.stringify` writes unchanged inside a string
      literal: anything but a double quote, a backslash or a control
      character. */
  predicate Plain(c: char) {
    c != '"' && c != '\\' && c >= ' '
  }

  /** A lower-case hexadecimal digit, as `JSON.stringify` writes them. */
  function HexDigit(n: int): char
    requires 0 <= n < 16
  {
    if n < 10 then (48 + n) as char else (87 + n) as char
  }

  /** The value of a hexadecimal digit of either case. */
  function HexValue(d: char): Option<int> {
    if '0' <= d <= '9' then Some(d as int - 48)
    else if 'a' <= d <= 'f' then Some(d as int - 87)
    else if 'A' <= d <= 'F' then Some(d as int - 55)
    else None
  }

  /** How `JSON.stringify` writes one character of a string: the
      two-character escapes for quote, backslash, backspace, form feed,
      newline, carriage return and tab, `\u00XX` for the other control
      characters, and the character itself otherwise. */
  function EscapeChar(c: char): string {
    if c == '"' then "\\\""
    else if c == '\\' then "\\\\"
    else if c == 8 as char then "\\b"
    else if c == 12 as char then "\\f"
    else if c == '\n' then "\\n"
    else if c == '\r' then "\\r"
    else if c == '\t' then "\\t"
    else if c < ' ' then "\\u00" + [HexDigit(c as int / 16), HexDigit(c as int % 16)]
    else [c]
  }

  function Escape(s: string): string {
    if |s| == 0 then "" else EscapeChar(s[0]) + Escape(s[1..])
  }

  /** `JSON.stringify` applied to a string. */
  function JsonString(s: string): string {
    "\"" + Escape(s) + "\""
  }

  /** The value of the four hexadecimal digits `t[0..4]`. */
  function Hex4(t: string): Option<int>
    requires |t| >= 4
  {
    match (HexValue(t[0]), HexValue(t[1]), HexValue(t[2]), HexValue(t[3]))
    case (Some(a), Some(b), Some(c), Some(d)) => Some(((a * 16 + b) * 16 + c) * 16 + d)
    case _ => None
  }

  /** The character a one-letter escape `\x` stands for. */
  function ShortEscape(x: char): Option<char> {
    if x == '"' then Some('"')
    else if x == '\\' then Some('\\')
    else if x == '/' then Some('/')
    else if x == 'b' then Some(8 as char)
    else if x == 'f' then Some(12 as char)
    else if x == 'n' then Some('\n')
    else if x == 'r' then Some('\r')
    else if x == 't' then Some('\t')
    else None
  }

  /** Reads the inside of a JSON string literal: undoes every escape and
      rejects an unescaped quote or control character. A `\u` escape of a
      surrogate half is rejected, since surrogate pairs are not joined. */
  function Unescape(t: string): Option<string>
    decreases |t|
  {
    if |t| == 0 then Some("")
    else if t[0] == '\\' then
      if |t| < 2 then None
      else if t[1] == 'u' then
        if |t| < 6 then None
        else match Hex4(t[2..6])
          case None => None
          case Some(v) =>
            if 0xD800 <= v < 0xE000 || !(0 <= v < 0x10000) then None
            else match Unescape(t[6..])
              case None => None
              case Some(u) => Some([v as char] + u)
      else match ShortEscape(t[1])
        case None => None
        case Some(c) =>
          match Unescape(t[2..])
          case None => None
          case Some(u) => Some([c] + u)
    else if !Plain(t[0]) then None
    else match Unescape(t[1..])
      case None => None
      case Some(u) => Some([t[0]] + u)
  }

  /** Reads a JSON string literal back into the string it denotes. */
  function JsonStringValue(r: string): Option<string> {
    if |r| < 2 || r[0] != '"' || r[|r| - 1] != '"' then None
    else Unescape(r[1..|r| - 1])
  }

  /** Reading an escaped character back gives the character, and the rest
      of the text is read on unchanged. */
  lemma UnescapeEscapeChar(c: char, rest: string)
    ensures Unescape(EscapeChar(c) + rest)
            == match Unescape(rest) case None => None case Some(u) => Some([c] + u)
  {
  }

  lemma {:induction false} UnescapeEscape(s: string)
    ensures Unescape(Escape(s)) == Some(s)
  {
    if |s| > 0 {
      UnescapeEscape(s[1..]);
      UnescapeEscapeChar(s[0], Escape(s[1..]));
      assert [s[0]] + s[1..] == s;
    }
  }

  /** The serialised string reads back as the original: nothing is lost
      and nothing is added by `JSON.stringify`. */
  lemma JsonStringRoundTrip(s: string)
    ensures JsonStringValue(JsonString(s)) == Some(s)
  {
    var r := JsonString(s);
    assert r[1..|r| - 1] == Escape(s);
    UnescapeEscape(s);
  }

  /** A string with only plain characters is written unchanged between the
      two quotes. */
  lemma {:induction false} EscapePlain(s: string)
    requires forall i :: 0 <= i < |s| ==> Plain(s[i])
    ensures Escape(s) == s
    ensures JsonString(s) == "\"" + s + "\""
  {
    if |s| > 0 {
      EscapePlain(s[1..]);
      assert [s[0]] + s[1..] == s;
    }
  }
}
