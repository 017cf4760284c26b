/**
 * UTF-8, as `Buffer.from(str, 'utf-8')` produces it, for strings of Unicode
 * scalar values (Dafny's `char`), with a decoder that undoes it.
 */
module Utf8 {
  import opened Common

  type Byte = b: int | 0 <= b < 256

  /** The one to four bytes of a scalar value, by its magnitude. */
  function EncodeChar(c: char): (b: seq<Byte>)
    ensures 1 <= |b| <= 4
  {
    var n := c as int;
    if n < 0x80 then [n]
    else if n < 0x800 then [0xC0 + n / 64, 0x80 + n % 64]
    else if n < 0x10000 then
      var q := n / 64;
      [0xE0 + q / 64, 0x80 + q % 64, 0x80 + n % 64]
    else
      var q1 := n / 64;
      var q2 := q1 / 64;
      [0xF0 + q2 / 64, 0x80 + q2 % 64, 0x80 + q1 % 64, 0x80 + n % 64]
  }

  /** The UTF-8 bytes of a string. */
  function Encode(s: string): (b: seq<Byte>)
    ensures |s| <= |b| <= 4 * |s|
  {
    if s == [] then [] else EncodeChar(s[0]) + Encode(s[1..])
  }

  predicate IsContinuation(b: Byte) {
    0x80 <= b < 0xC0
  }

  predicate IsScalar(n: int) {
    (0 <= n < 0xD800) || (0xE000 <= n <= 0x10FFFF)
  }

  /** The character at the front of a byte sequence and how many bytes it takes. */
  function DecodeFirst(b: seq<Byte>): (r: Option<(char, nat)>)
    ensures r.Some? ==> 1 <= r.value.1 <= |b|
  {
    if b == [] then None
    else if b[0] < 0x80 then Some((b[0] as char, 1))
    else if 0xC0 <= b[0] < 0xE0 && |b| >= 2 && IsContinuation(b[1]) then
      var n: int := (b[0] as int - 0xC0) * 64 + (b[1] as int - 0x80);
      if IsScalar(n) then Some((n as char, 2)) else None
    else if 0xE0 <= b[0] < 0xF0 && |b| >= 3 && IsContinuation(b[1]) && IsContinuation(b[2]) then
      var n: int := ((b[0] as int - 0xE0) * 64 + (b[1] as int - 0x80)) * 64 + (b[2] as int - 0x80);
      if IsScalar(n) then Some((n as char, 3)) else None
    else if 0xF0 <= b[0] < 0xF8 && |b| >= 4 && IsContinuation(b[1]) && IsContinuation(b[2])
      && IsContinuation(b[3]) then
      var n: int :=
        (((b[0] as int - 0xF0) * 64 + (b[1] as int - 0x80)) * 64 + (b[2] as int - 0x80)) * 64 + (b[3] as int - 0x80);
      if IsScalar(n) then Some((n as char, 4)) else None
    else None
  }

  /** Reads characters until the bytes run out; `None` on a malformed sequence. */
  function Decode(b: seq<Byte>): Option<string>
    decreases |b|
  {
    if b == [] then Some([])
    else
      match DecodeFirst(b)
      case None => None
      case Some((c, k)) =>
        match Decode(b[k..])
        case None => None
        case Some(rest) => Some([c] + rest)
  }

  /** The first character's bytes are read back as that character. */
  lemma DecodeEncodeChar(c: char, rest: seq<Byte>)
    ensures DecodeFirst(EncodeChar(c) + rest) == Some((c, |EncodeChar(c)|))
  {
    var n := c as int;
    var b := EncodeChar(c) + rest;
    if n < 0x80 {
    } else if n < 0x800 {
      assert (b[0] - 0xC0) * 64 + (b[1] - 0x80) == n;
    } else if n < 0x10000 {
      var q := n / 64;
      assert (b[0] - 0xE0) * 64 + (b[1] - 0x80) == q;
      assert (q * 64) + (b[2] - 0x80) == n;
    } else {
      var q1 := n / 64;
      var q2 := q1 / 64;
      assert (b[0] - 0xF0) * 64 + (b[1] - 0x80) == q2;
      assert q2 * 64 + (b[2] - 0x80) == q1;
      assert q1 * 64 + (b[3] - 0x80) == n;
    }
  }

  /** Decoding undoes encoding: the UTF-8 bytes of every string read back to it. */
  lemma {:induction false} DecodeEncode(s: string)
    ensures Decode(Encode(s)) == Some(s)
  {
    if s != [] {
      var head := EncodeChar(s[0]);
      var tail := Encode(s[1..]);
      DecodeEncodeChar(s[0], tail);
      assert (head + tail)[|head|..] == tail;
      DecodeEncode(s[1..]);
      assert [s[0]] + s[1..] == s;
    }
  }
}

/**
 * The standard base 64 alphabet with `=` padding of section 4 of RFC 4648,
 * as `Buffer.prototype.toString('base64')` writes it, with a decoder.
 */
module Base64 {
  import opened Common
  import opened Utf8

  /** The character for a six-bit value: `A`-`Z`, `a`-`z`, `0`-`9`, `+`, `/`. */
  function Char(v: int): (c: char)
    requires 0 <= v < 64
    ensures Value(c) == v
  {
    if v < 26 then ('A' as int + v) as char
    else if v < 52 then ('a' as int + v - 26) as char
    else if v < 62 then ('0' as int + v - 52) as char
    else if v == 62 then '+'
    else '/'
  }

  /** The six-bit value of an alphabet character, -1 for any other character. */
  function Value(c: char): int {
    if 'A' <= c <= 'Z' then c as int - 'A' as int
    else if 'a' <= c <= 'z' then c as int - 'a' as int + 26
    else if '0' <= c <= '9' then c as int - '0' as int + 52
    else if c == '+' then 62
    else if c == '/' then 63
    else -1
  }

  predicate InAlphabet(c: char) {
    Value(c) >= 0
  }

  /** One group of one to three bytes as four characters, padded with `=`. */
  function EncodeGroup(b: seq<Byte>): (s: string)
    requires 1 <= |b| <= 3
    ensures |s| == 4
  {
    if |b| == 1 then
      [Char(b[0] / 4), Char((b[0] % 4) * 16), '=', '=']
    else if |b| == 2 then
      var n: int := b[0] as int * 256 + b[1] as int;
      [Char(n / 1024), Char((n / 16) % 64), Char((n % 16) * 4), '=']
    else
      var n: int := (b[0] as int * 256 + b[1] as int) * 256 + b[2] as int;
      var q1 := n / 64;
      var q2 := q1 / 64;
      [Char(q2 / 64), Char(q2 % 64), Char(q1 % 64), Char(n % 64)]
  }

  /** Base 64 of a byte sequence: every full group of three, then the padded remainder. */
  function Encode(b: seq<Byte>): (s: string)
    ensures |s| == 4 * ((|b| + 2) / 3)
    decreases |b|
  {
    if b == [] then []
    else if |b| <= 3 then EncodeGroup(b)
    else
      assert (|b| + 2) / 3 == (|b| - 3 + 2) / 3 + 1;
      EncodeGroup(b[..3]) + Encode(b[3..])
  }

  /** The bytes of one four-character group; `None` when a character is outside the alphabet. */
  function DecodeGroup(s: string): (r: Option<seq<Byte>>)
    requires |s| == 4
    ensures r.Some? ==> 1 <= |r.value| <= 3
  {
    var v0, v1, v2, v3 := Value(s[0]), Value(s[1]), Value(s[2]), Value(s[3]);
    if v0 < 0 || v1 < 0 then None
    else if s[2] == '=' && s[3] == '=' then
      Some([v0 * 4 + v1 / 16])
    else if v2 < 0 then None
    else if s[3] == '=' then
      var n := (v0 * 64 + v1) * 64 + v2;
      Some([n / 1024, (n / 4) % 256])
    else if v3 < 0 then None
    else
      var n := ((v0 * 64 + v1) * 64 + v2) * 64 + v3;
      Some([n / 65536, (n / 256) % 256, n % 256])
  }

  /** Reads four characters at a time; padding may only end the text. */
  function Decode(s: string): Option<seq<Byte>>
    decreases |s|
  {
    if s == [] then Some([])
    else if |s| < 4 then None
    else
      match DecodeGroup(s[..4])
      case None => None
      case Some(g) =>
        if |g| < 3 && |s| > 4 then None
        else
          match Decode(s[4..])
          case None => None
          case Some(rest) => Some(g + rest)
  }

  /** Six-bit digits of a 24-bit number put back together. */
  lemma Sextets(n: int)
    requires 0 <= n < 0x100_0000
    ensures 0 <= n / 64 / 64 / 64 < 64
    ensures ((n / 64 / 64 / 64 * 64 + n / 64 / 64 % 64) * 64 + n / 64 % 64) * 64 + n % 64 == n
  {
  }

  /** Bytes of a 24-bit number taken apart. */
  lemma Octets(b0: Byte, b1: Byte, b2: Byte)
    ensures ((b0 * 256 + b1) * 256 + b2) / 65536 == b0
    ensures (((b0 * 256 + b1) * 256 + b2) / 256) % 256 == b1
    ensures ((b0 * 256 + b1) * 256 + b2) % 256 == b2
  {
    var n: int := (b0 * 256 + b1) * 256 + b2;
    assert n == b0 * 65536 + (b1 * 256 + b2);
    assert n / 256 == b0 * 256 + b1;
  }

  /** Two bytes as three six-bit digits, the last one padded with two zero bits. */
  lemma Pair(b0: Byte, b1: Byte)
    ensures var n := b0 * 256 + b1;
      (n / 1024 * 64 + (n / 16) % 64) * 64 + (n % 16) * 4 == n * 4
      && (n * 4) / 1024 == b0 && ((n * 4) / 4) % 256 == b1
  {
    var n: int := b0 * 256 + b1;
    var a, m := n / 1024, n % 1024;
    assert n == a * 1024 + m && 0 <= m < 1024;
    assert n / 16 == a * 64 + m / 16;
    assert (n / 16) % 64 == m / 16;
    assert n % 16 == m % 16;
    assert m == m / 16 * 16 + m % 16;
    assert (n * 4) / 4 == n;
    assert (n * 4) / 1024 == n / 256;
  }

  lemma DecodeEncodeGroup(b: seq<Byte>)
    requires 1 <= |b| <= 3
    ensures DecodeGroup(EncodeGroup(b)) == Some(b)
  {
    if |b| == 1 {
      assert ((b[0] % 4) * 16) / 16 == b[0] % 4;
      assert DecodeGroup(EncodeGroup(b)) == Some([b[0] / 4 * 4 + b[0] % 4]);
      assert [b[0] / 4 * 4 + b[0] % 4] == b;
    } else if |b| == 2 {
      var n: int := b[0] as int * 256 + b[1] as int;
      Pair(b[0], b[1]);
      assert DecodeGroup(EncodeGroup(b)) == Some([(n * 4) / 1024, ((n * 4) / 4) % 256]);
      assert [(n * 4) / 1024, ((n * 4) / 4) % 256] == b;
    } else {
      DecodeEncodeTriple(b);
    }
  }

  lemma DecodeEncodeTriple(b: seq<Byte>)
    requires |b| == 3
    ensures DecodeGroup(EncodeGroup(b)) == Some(b)
  {
    var n: int := (b[0] as int * 256 + b[1] as int) * 256 + b[2] as int;
    Sextets(n);
    Octets(b[0], b[1], b[2]);
    var s := EncodeGroup(b);
    assert s == [Char(n / 64 / 64 / 64), Char(n / 64 / 64 % 64), Char(n / 64 % 64), Char(n % 64)];
    assert DecodeGroup(s) == Some([n / 65536, (n / 256) % 256, n % 256]);
    assert [n / 65536, (n / 256) % 256, n % 256] == b;
  }

  /** Decoding undoes encoding for every byte sequence. */
  lemma {:induction false} DecodeEncode(b: seq<Byte>)
    ensures Decode(Encode(b)) == Some(b)
    decreases |b|
  {
    if b == [] {
    } else if |b| <= 3 {
      DecodeEncodeGroup(b);
      var s := EncodeGroup(b);
      assert s[..4] == s && s[4..] == [];
      assert b + [] == b;
    } else {
      var head := EncodeGroup(b[..3]);
      var tail := Encode(b[3..]);
      DecodeEncodeGroup(b[..3]);
      assert (head + tail)[..4] == head;
      assert (head + tail)[4..] == tail;
      DecodeEncode(b[3..]);
      assert b[..3] + b[3..] == b;
    }
  }

  /** `Buffer.from(str, 'utf-8').toString('base64')`. */
  function ToBase64(s: string): string {
    Encode(Utf8.Encode(s))
  }

  /** Base 64 of UTF-8 loses nothing: the text reads back from it. */
  lemma ToBase64Decodes(s: string)
    ensures Decode(ToBase64(s)).Some?
    ensures Utf8.Decode(Decode(ToBase64(s)).value) == Some(s)
  {
    DecodeEncode(Utf8.Encode(s));
    Utf8.DecodeEncode(s);
  }
}
