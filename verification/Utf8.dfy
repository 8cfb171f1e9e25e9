/** UTF-8 (RFC 3629) as Go writes and reads it: decoding replaces every byte that starts no valid
    sequence by U+FFFD. */
module Utf8 {
  import opened Wrappers

  function EncodeChar(c: char): (b: seq<Byte>)
    ensures 1 <= |b| <= 4
    ensures c as int < 0x80 <==> b[0] < 0x80
    ensures c as int < 0x80 ==> b == [c as int]
  {
    var n := c as int;
    if n < 0x80 then [n]
    else if n < 0x800 then [0xC0 + n / 0x40, 0x80 + n % 0x40]
    else if n < 0x1_0000 then [0xE0 + n / 0x1000, 0x80 + n / 0x40 % 0x40, 0x80 + n % 0x40]
    else [0xF0 + n / 0x4_0000, 0x80 + n / 0x1000 % 0x40, 0x80 + n / 0x40 % 0x40, 0x80 + n % 0x40]
  }

  function Encode(s: string): (b: seq<Byte>)
    ensures s != "" ==> b != [] && b[0] == EncodeChar(s[0])[0]
  {
    if s == "" then [] else EncodeChar(s[0]) + Encode(s[1..])
  }

  predicate Continues(b: seq<Byte>, i: nat) {
    i < |b| && 0x80 <= b[i] < 0xC0
  }

  function Above(b: Byte, base: int): int {
    b as int - base
  }

  predicate IsScalar(n: int) {
    0 <= n < 0xD800 || 0xE000 <= n < 0x11_0000
  }

  /** The code point in front of b and how many bytes it takes; none when the bytes are not valid. */
  function Lead(b: seq<Byte>): (r: Option<(int, nat)>)
    requires b != []
    ensures r.Some? ==> IsScalar(r.value.0) && 1 <= r.value.1 <= |b|
  {
    if b[0] < 0x80 then Some((b[0], 1))
    else if 0xC2 <= b[0] < 0xE0 && Continues(b, 1) then
      Some((Above(b[0], 0xC0) * 0x40 + Above(b[1], 0x80), 2))
    else if 0xE0 <= b[0] < 0xF0 && Continues(b, 1) && Continues(b, 2) then
      var n := Above(b[0], 0xE0) * 0x1000 + Above(b[1], 0x80) * 0x40 + Above(b[2], 0x80);
      if 0x800 <= n && IsScalar(n) then Some((n, 3)) else None
    else if 0xF0 <= b[0] < 0xF5 && Continues(b, 1) && Continues(b, 2) && Continues(b, 3) then
      var n := Above(b[0], 0xF0) * 0x4_0000 + Above(b[1], 0x80) * 0x1000 + Above(b[2], 0x80) * 0x40
        + Above(b[3], 0x80);
      if 0x1_0000 <= n && IsScalar(n) then Some((n, 4)) else None
    else None
  }

  const REPLACEMENT: char := '\U{FFFD}'

  function Decode(b: seq<Byte>): string {
    if b == [] then ""
    else
      match Lead(b)
      case Some((n, size)) => [n as char] + Decode(b[size..])
      case None => [REPLACEMENT] + Decode(b[1..])
  }

  lemma SixBitDigits(n: nat)
    ensures n == n / 0x40 * 0x40 + n % 0x40
    ensures n / 0x40 == n / 0x1000 * 0x40 + n / 0x40 % 0x40
    ensures n / 0x1000 == n / 0x4_0000 * 0x40 + n / 0x1000 % 0x40
  {
  }

  lemma LeadOfEncoded(c: char, rest: seq<Byte>)
    ensures Lead(EncodeChar(c) + rest) == Some((c as int, |EncodeChar(c)|))
  {
    var n := c as int;
    var e := EncodeChar(c);
    var b := e + rest;
    SixBitDigits(n);
    assert b[0] == e[0];
    if n >= 0x1_0000 {
      assert b[1] == e[1] && b[2] == e[2] && b[3] == e[3];
    } else if n >= 0x800 {
      assert b[1] == e[1] && b[2] == e[2];
    } else if n >= 0x80 {
      assert b[1] == e[1];
    }
  }

  /** Every string of Unicode characters survives. */
  lemma {:induction false} DecodeEncode(s: string)
    ensures Decode(Encode(s)) == s
  {
    if s != "" {
      LeadOfEncoded(s[0], Encode(s[1..]));
      assert Encode(s)[|EncodeChar(s[0])|..] == Encode(s[1..]);
      DecodeEncode(s[1..]);
    }
  }

  /** Every character took a byte at least. */
  lemma {:induction false} DecodeLength(b: seq<Byte>)
    ensures |Decode(b)| <= |b|
    decreases |b|
  {
    if b != [] {
      DecodeLength(b[if Lead(b).Some? then Lead(b).value.1 else 1..]);
    }
  }

  /** One character of each length. */
  lemma Vectors()
    ensures EncodeChar('$') == [0x24] && EncodeChar('\U{A2}') == [0xC2, 0xA2]
    ensures EncodeChar('\U{20AC}') == [0xE2, 0x82, 0xAC] && EncodeChar('\U{10348}') == [0xF0, 0x90, 0x8D, 0x88]
  {
  }

  lemma LastSixBits(high: nat, low: nat)
    requires low < 0x40
    ensures (high * 0x40 + low) / 0x40 == high && (high * 0x40 + low) % 0x40 == low
  {
  }

  /** The digits of a number put together six bits at a time. */
  lemma SixBitsBack(a: nat, b: nat, c: nat, d: nat)
    requires b < 0x40 && c < 0x40 && d < 0x40
    ensures var n := ((a * 0x40 + b) * 0x40 + c) * 0x40 + d;
      n % 0x40 == d && n / 0x40 % 0x40 == c && n / 0x1000 % 0x40 == b && n / 0x4_0000 == a
      && n / 0x40 == (a * 0x40 + b) * 0x40 + c && n / 0x1000 == a * 0x40 + b
  {
    var n := ((a * 0x40 + b) * 0x40 + c) * 0x40 + d;
    LastSixBits((a * 0x40 + b) * 0x40 + c, d);
    LastSixBits(a * 0x40 + b, c);
    LastSixBits(a, b);
    assert n / 0x1000 == n / 0x40 / 0x40 && n / 0x4_0000 == n / 0x40 / 0x40 / 0x40;
  }

  /** Only the encoding of a character is read as that character: nothing overlong, no surrogate. */
  lemma LeadIsEncoded(b: seq<Byte>)
    requires b != [] && Lead(b).Some?
    ensures EncodeChar(Lead(b).value.0 as char) == b[..Lead(b).value.1]
  {
    var size := Lead(b).value.1;
    if size == 1 {
      assert b[..1] == [b[0]];
    } else if size == 2 {
      LastSixBits(b[0] - 0xC0, b[1] - 0x80);
      assert b[..2] == [b[0], b[1]];
    } else if size == 3 {
      SixBitsBack(0, b[0] - 0xE0, b[1] - 0x80, b[2] - 0x80);
      assert b[..3] == [b[0], b[1], b[2]];
    } else {
      SixBitsBack(b[0] - 0xF0, b[1] - 0x80, b[2] - 0x80, b[3] - 0x80);
      assert b[..4] == [b[0], b[1], b[2], b[3]];
    }
  }
}
