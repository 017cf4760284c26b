/**
 * The one JSON shape on the chat wire: `{"content":"..."}`. Encoding is
 * `JSON.stringify({ content })`, with the string escapes of section 7 of
 * RFC 8259 as ECMAScript's JSON.stringify chooses them; decoding is what
 * `JSON.parse(line).content` gives for such a line.
 */
module Json {
  import opened Common
  import opened Strings

  /** A lower-case hexadecimal digit, as JSON.stringify writes them. */
  function HexDigit(d: nat): char
    requires d < 16
  {
    if d < 10 then ('0' as int + d) as char else ('a' as int + d - 10) as char
  }

  /** The value of a hexadecimal digit in either case, or -1. */
  function HexValue(c: char): int {
    if '0' <= c <= '9' then c as int - '0' as int
    else if 'a' <= c <= 'f' then c as int - 'a' as int + 10
    else if 'A' <= c <= 'F' then c as int - 'A' as int + 10
    else -1
  }

  /** How JSON.stringify writes one character of a string. */
  function EscapeChar(c: char): string {
    if c == '"' then "\\\""
    else if c == '\\' then "\\\\"
    else if c == '\U{0008}' then "\\b"
    else if c == '\t' then "\\t"
    else if c == '\n' then "\\n"
    else if c == '\U{000C}' then "\\f"
    else if c == '\r' then "\\r"
    else if c < ' ' then "\\u00" + [HexDigit(c as int / 16), HexDigit(c as int % 16)]
    else [c]
  }

  /** The characters of a string between its quotes. */
  function Escape(s: string): string {
    if s == [] then [] else EscapeChar(s[0]) + Escape(s[1..])
  }

  /** `JSON.stringify({ content })`. */
  function Record(content: string): string {
    "{\"content\":\"" + Escape(content) + "\"}"
  }

  /** One relayed frame: the record and a line break. */
  function Frame(content: string): string {
    Record(content) + "\n"
  }

  /** No escaped character is a control character: those are all written as escapes. */
  lemma EscapeCharNoControl(c: char)
    ensures forall k :: 0 <= k < |EscapeChar(c)| ==> EscapeChar(c)[k] >= ' '
  {
  }

  lemma {:induction false} EscapeNoControl(s: string)
    ensures forall k :: 0 <= k < |Escape(s)| ==> Escape(s)[k] >= ' '
  {
    if s != [] {
      EscapeCharNoControl(s[0]);
      EscapeNoControl(s[1..]);
      var a, b := EscapeChar(s[0]), Escape(s[1..]);
      forall k | 0 <= k < |a + b| ensures (a + b)[k] >= ' ' {
        if k < |a| { assert (a + b)[k] == a[k]; } else { assert (a + b)[k] == b[k - |a|]; }
      }
    }
  }

  /**
   * A record holds no raw line break (nor any other control character), so a
   * frame's only line break is its last character.
   */
  lemma RecordHasNoLineBreak(content: string)
    ensures '\n' !in Record(content)
    ensures Frame(content)[|Frame(content)| - 1] == '\n'
  {
    EscapeNoControl(content);
    var e := Escape(content);
    var r := Record(content);
    assert r == "{\"content\":\"" + e + "\"}";
    forall k | 0 <= k < |r| ensures r[k] != '\n' {
      if 12 <= k < 12 + |e| {
        assert r[k] == e[k - 12];
      }
    }
  }

  // ---------------------------------------------------------------------
  // Decoding
  // ---------------------------------------------------------------------

  /** Four hexadecimal digits, read as a number, or -1. */
  function Hex4(t: string): int
    requires |t| >= 4
  {
    var a, b, c, d := HexValue(t[0]), HexValue(t[1]), HexValue(t[2]), HexValue(t[3]);
    if a < 0 || b < 0 || c < 0 || d < 0 then -1 else ((a * 16 + b) * 16 + c) * 16 + d
  }

  /** The escape after a backslash: the character it stands for and how many characters it spans. */
  function Unescape(t: string): (r: Option<(char, nat)>)
    ensures r.Some? ==> 1 <= r.value.1 <= |t|
  {
    if t == [] then None
    else if t[0] == '"' then Some(('"', 1))
    else if t[0] == '\\' then Some(('\\', 1))
    else if t[0] == '/' then Some(('/', 1))
    else if t[0] == 'b' then Some(('\U{0008}', 1))
    else if t[0] == 'f' then Some(('\U{000C}', 1))
    else if t[0] == 'n' then Some(('\n', 1))
    else if t[0] == 'r' then Some(('\r', 1))
    else if t[0] == 't' then Some(('\t', 1))
    else if t[0] == 'u' && |t| >= 5 then
      var v := Hex4(t[1..5]);
      if 0 <= v < 0xD800 || 0xE000 <= v < 0x1_0000 then Some((v as char, 5)) else None
    else None
  }

  function Prepend(c: char, r: Option<(string, string)>): Option<(string, string)> {
    match r
    case None => None
    case Some((s, rest)) => Some(([c] + s, rest))
  }

  /** A string token after its opening quote: its value and what follows the closing quote. */
  function ParseString(t: string): Option<(string, string)>
    decreases |t|
  {
    if t == [] then None
    else if t[0] == '"' then Some(([], t[1..]))
    else if t[0] == '\\' then
      match Unescape(t[1..])
      case None => None
      case Some((c, n)) => Prepend(c, ParseString(t[1 + n..]))
    else if t[0] < ' ' then None
    else Prepend(t[0], ParseString(t[1..]))
  }

  const RecordOpen: string := "{\"content\":\""

  /** `JSON.parse(line).content` for a line of the relayed shape; None for any other line. */
  function DecodeRecord(line: string): Option<string> {
    if |line| >= |RecordOpen| && line[..|RecordOpen|] == RecordOpen then
      match ParseString(line[|RecordOpen|..])
      case Some((content, "}")) => Some(content)
      case _ => None
    else None
  }

  /** Reading one escaped character yields that character and continues after it. */
  lemma ParseEscapeChar(c: char, u: string)
    ensures ParseString(EscapeChar(c) + u) == Prepend(c, ParseString(u))
  {
    var e := EscapeChar(c);
    var t := e + u;
    if c < ' ' && c != '\U{0008}' && c != '\t' && c != '\n' && c != '\U{000C}' && c != '\r' {
      var hi, lo := c as int / 16, c as int % 16;
      var w := t[..6];
      assert w == "\\u00" + [HexDigit(hi), HexDigit(lo)];
      assert w[2] == '0' && w[3] == '0' && w[4] == HexDigit(hi) && w[5] == HexDigit(lo);
      assert t[1..][1..5] == w[2..6];
      assert Hex4(t[1..][1..5]) == c as int;
      assert t[6..] == u;
    } else if e == [c] {
      assert t[1..] == u;
    } else {
      assert |e| == 2 && t[2..] == u;
    }
  }

  /** Reading back an escaped string and its closing quote gives the string and the rest. */
  lemma {:induction false} ParseEscape(s: string, rest: string)
    ensures ParseString(Escape(s) + "\"" + rest) == Some((s, rest))
  {
    if s == [] {
      assert Escape(s) + "\"" + rest == "\"" + rest;
    } else {
      var u := Escape(s[1..]) + "\"" + rest;
      assert Escape(s) + "\"" + rest == EscapeChar(s[0]) + u;
      ParseEscapeChar(s[0], u);
      ParseEscape(s[1..], rest);
      assert [s[0]] + s[1..] == s;
    }
  }

  /** The store reads back exactly what the relay wrote. */
  lemma DecodeRecordRoundTrip(content: string)
    ensures DecodeRecord(Record(content)) == Some(content)
  {
    var r := Record(content);
    assert r[..|RecordOpen|] == RecordOpen;
    assert r[|RecordOpen|..] == Escape(content) + "\"" + "}";
    ParseEscape(content, "}");
  }
}
