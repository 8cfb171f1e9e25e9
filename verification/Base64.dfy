/** base64.StdEncoding: section 4 of RFC 4648 with padding. */
module Base64 {
  import opened Wrappers

  function Symbol(v: nat): (c: char)
    requires v < 64
    ensures SymbolValue(c) == Some(v)
    ensures c != '=' && c != '\r' && c != '\n'
  {
    if v < 26 then ('A' as int + v) as char
    else if v < 52 then ('a' as int + v - 26) as char
    else if v < 62 then ('0' as int + v - 52) as char
    else if v == 62 then '+'
    else '/'
  }

  function SymbolValue(c: char): (v: Option<nat>)
    ensures v.Some? ==> v.value < 64
  {
    if 'A' <= c <= 'Z' then Some(c as int - 'A' as int)
    else if 'a' <= c <= 'z' then Some(c as int - 'a' as int + 26)
    else if '0' <= c <= '9' then Some(c as int - '0' as int + 52)
    else if c == '+' then Some(62)
    else if c == '/' then Some(63)
    else None
  }

  function Encode(b: seq<Byte>): string {
    if b == [] then ""
    else if |b| == 1 then
      [Symbol(b[0] / 4), Symbol(b[0] % 4 * 16), '=', '=']
    else if |b| == 2 then
      [Symbol(b[0] / 4), Symbol(b[0] % 4 * 16 + b[1] / 16), Symbol(b[1] % 16 * 4), '=']
    else
      [Symbol(b[0] / 4), Symbol(b[0] % 4 * 16 + b[1] / 16), Symbol(b[1] % 16 * 4 + b[2] / 64), Symbol(b[2] % 64)]
      + Encode(b[3..])
  }

  /** Line breaks are skipped wherever they stand. */
  function SkipBreaks(s: string): string {
    if s == "" then ""
    else if s[0] == '\r' || s[0] == '\n' then SkipBreaks(s[1..])
    else [s[0]] + SkipBreaks(s[1..])
  }

  /** Four symbols a step; padding ends the text, and the bits it leaves over are ignored. */
  function DecodeQuads(s: string): Option<seq<Byte>> {
    if s == "" then Some([])
    else if |s| < 4 then None
    else
      match (SymbolValue(s[0]), SymbolValue(s[1]), SymbolValue(s[2]), SymbolValue(s[3]))
      case (Some(a), Some(b), Some(c), Some(d)) =>
        (match DecodeQuads(s[4..])
         case Some(rest) => Some([a * 4 + b / 16, b % 16 * 16 + c / 4, c % 4 * 64 + d] + rest)
         case None => None)
      case (Some(a), Some(b), Some(c), None) =>
        if s[3] == '=' && |s| == 4 then Some([a * 4 + b / 16, b % 16 * 16 + c / 4]) else None
      case (Some(a), Some(b), None, _) =>
        if s[2] == '=' && s[3] == '=' && |s| == 4 then Some([a * 4 + b / 16]) else None
      case _ => None
  }

  function Decode(s: string): Option<seq<Byte>> {
    DecodeQuads(SkipBreaks(s))
  }

  lemma TripleBits(x: Byte, y: Byte, z: Byte)
    ensures var a, b, c, d := x / 4, x % 4 * 16 + y / 16, y % 16 * 4 + z / 64, z % 64;
      a * 4 + b / 16 == x && b % 16 * 16 + c / 4 == y && c % 4 * 64 + d == z
  {
  }

  lemma QuadSteps(s: string, a: nat, b: nat, c: nat, d: nat, rest: seq<Byte>)
    requires |s| >= 4 && DecodeQuads(s[4..]) == Some(rest)
    requires SymbolValue(s[0]) == Some(a) && SymbolValue(s[1]) == Some(b)
    requires SymbolValue(s[2]) == Some(c) && SymbolValue(s[3]) == Some(d)
    ensures a < 64 && b < 64 && c < 64 && d < 64
    ensures DecodeQuads(s) == Some([a * 4 + b / 16, b % 16 * 16 + c / 4, c % 4 * 64 + d] + rest)
  {
  }

  lemma FullQuad(x: Byte, y: Byte, z: Byte, text: string, rest: seq<Byte>)
    requires DecodeQuads(text) == Some(rest)
    ensures DecodeQuads(
              [Symbol(x / 4), Symbol(x % 4 * 16 + y / 16), Symbol(y % 16 * 4 + z / 64), Symbol(z % 64)] + text)
      == Some([x, y, z] + rest)
  {
    TripleBits(x, y, z);
    var a, b, c, d := x / 4, x % 4 * 16 + y / 16, y % 16 * 4 + z / 64, z % 64;
    var s := [Symbol(a), Symbol(b), Symbol(c), Symbol(d)] + text;
    assert s[4..] == text;
    QuadSteps(s, a, b, c, d, rest);
  }

  lemma OnePadded(x: Byte)
    ensures DecodeQuads([Symbol(x / 4), Symbol(x % 4 * 16), '=', '=']) == Some([x])
  {
    assert x / 4 * 4 + x % 4 * 16 / 16 == x;
    assert SymbolValue('=') == None;
  }

  lemma TwoPadded(x: Byte, y: Byte)
    ensures DecodeQuads([Symbol(x / 4), Symbol(x % 4 * 16 + y / 16), Symbol(y % 16 * 4), '=']) == Some([x, y])
  {
    var a, b, c := x / 4, x % 4 * 16 + y / 16, y % 16 * 4;
    assert a * 4 + b / 16 == x && b % 16 * 16 + c / 4 == y;
    assert SymbolValue('=') == None;
  }

  lemma {:induction false} DecodeQuadsEncode(b: seq<Byte>)
    ensures DecodeQuads(Encode(b)) == Some(b)
  {
    if |b| == 1 {
      OnePadded(b[0]);
      assert b == [b[0]];
    } else if |b| == 2 {
      TwoPadded(b[0], b[1]);
      assert b == [b[0], b[1]];
    } else if b != [] {
      DecodeQuadsEncode(b[3..]);
      FullQuad(b[0], b[1], b[2], Encode(b[3..]), b[3..]);
      assert b == [b[0], b[1], b[2]] + b[3..];
    }
  }

  predicate NoBreaks(s: string) {
    forall i | 0 <= i < |s| :: s[i] != '\r' && s[i] != '\n'
  }

  lemma {:induction false} EncodeHasNoBreaks(b: seq<Byte>)
    ensures NoBreaks(Encode(b))
  {
    if |b| >= 3 {
      EncodeHasNoBreaks(b[3..]);
    }
  }

  lemma {:induction false} NothingToSkip(s: string)
    requires NoBreaks(s)
    ensures SkipBreaks(s) == s
  {
    if s != "" {
      NothingToSkip(s[1..]);
    }
  }

  /** Every byte string survives. */
  lemma DecodeEncode(b: seq<Byte>)
    ensures Decode(Encode(b)) == Some(b)
  {
    EncodeHasNoBreaks(b);
    NothingToSkip(Encode(b));
    DecodeQuadsEncode(b);
  }

  lemma {:induction false} SkipBreaksLength(s: string)
    ensures |SkipBreaks(s)| <= |s|
  {
    if s != "" {
      SkipBreaksLength(s[1..]);
    }
  }

  lemma {:induction false} DecodeQuadsLength(s: string)
    requires DecodeQuads(s).Some?
    ensures |DecodeQuads(s).value| <= |s|
  {
    if |s| > 4 && DecodeQuads(s[4..]).Some? {
      DecodeQuadsLength(s[4..]);
    }
  }

  /** Decoding never makes a text longer. */
  lemma DecodeLength(s: string)
    requires Decode(s).Some?
    ensures |Decode(s).value| <= |s|
  {
    SkipBreaksLength(s);
    DecodeQuadsLength(SkipBreaks(s));
  }

  /** Bits regrouped: from three digits in base 256 to four in base 64. */
  lemma Regrouped(x: Byte, y: Byte, z: Byte)
    ensures var a, b, c, d := x / 4, x % 4 * 16 + y / 16, y % 16 * 4 + z / 64, z % 64;
      a < 64 && b < 64 && c < 64 && d < 64
      && x * 0x1_0000 + y * 0x100 + z == ((a * 64 + b) * 64 + c) * 64 + d
  {
    assert x == x / 4 * 4 + x % 4 && y == y / 16 * 16 + y % 16 && z == z / 64 * 64 + z % 64;
  }

  /** A group of three bytes is written as the four digits in base 64 of one 24-bit number. */
  lemma GroupIsNumber(x: Byte, y: Byte, z: Byte) returns (a: nat, b: nat, c: nat, d: nat)
    ensures a < 64 && b < 64 && c < 64 && d < 64
    ensures x * 0x1_0000 + y * 0x100 + z == ((a * 64 + b) * 64 + c) * 64 + d
    ensures Encode([x, y, z]) == [Symbol(a), Symbol(b), Symbol(c), Symbol(d)]
  {
    a, b, c, d := x / 4, x % 4 * 16 + y / 16, y % 16 * 4 + z / 64, z % 64;
    Regrouped(x, y, z);
    var s: seq<Byte> := [x, y, z];
    assert s[3..] == [];
  }

  /** The groups of the test vectors in section 10 of RFC 4648, and the last two symbols. */
  lemma Vectors()
    ensures Encode([0x66]) == "Zg==" && Encode([0x66, 0x6F]) == "Zm8="
    ensures Symbol(25) == 'Z' && Symbol(38) == 'm' && Symbol(61) == '9' && Symbol(47) == 'v'
    ensures Symbol(62) == '+' && Symbol(63) == '/'
  {
  }

  /** What decodes is whole groups, with padding in the last two places only. */
  lemma {:induction false} DecodedIsPadded(s: string)
    requires DecodeQuads(s).Some?
    ensures |s| % 4 == 0
    ensures forall i | 0 <= i < |s| - 2 :: SymbolValue(s[i]).Some?
    ensures forall i | 0 <= i < |s| :: SymbolValue(s[i]).Some? || s[i] == '='
  {
    if |s| > 4 {
      assert SymbolValue(s[2]).Some? && SymbolValue(s[3]).Some?;
      DecodedIsPadded(s[4..]);
      forall i | 4 <= i < |s| ensures s[i] == s[4..][i - 4] {
      }
    }
  }

  /** A line break anywhere makes no difference. */
  lemma {:induction false} BreaksDoNotMatter(a: string, c: char, b: string)
    requires c == '\r' || c == '\n'
    ensures Decode(a + [c] + b) == Decode(a + b)
  {
    BreakSkipped(a, c, b);
  }

  lemma {:induction false} BreakSkipped(a: string, c: char, b: string)
    requires c == '\r' || c == '\n'
    ensures SkipBreaks(a + [c] + b) == SkipBreaks(a + b)
  {
    if a == "" {
      assert (a + [c] + b)[1..] == b && a + b == b;
    } else {
      assert (a + [c] + b)[1..] == a[1..] + [c] + b && (a + b)[1..] == a[1..] + b;
      BreakSkipped(a[1..], c, b);
    }
  }
}
