/** strconv.ParseFloat and the conversion back to an integer, in exact decimals: a number is
    mantissa * 10^exponent. Binary rounding, range errors and the spellings inf, nan and 0x are not modelled. */
module Decimal {
  import opened GoText
  import opened Wrappers

  datatype Number = Number(mantissa: int, exponent: int)

  function Pow10(n: nat): (p: nat)
    ensures p >= 1
  {
    if n == 0 then 1 else 10 * Pow10(n - 1)
  }

  /** The integer quotient, toward zero as Go truncates. */
  function Quotient(a: int, b: nat): int
    requires b > 0
  {
    if a >= 0 then a / b else -(-a / b)
  }

  /** int64(value * factor). */
  function Truncate(v: Number, factor: nat): int {
    if v.exponent >= 0 then v.mantissa * factor * Pow10(v.exponent)
    else Quotient(v.mantissa * factor, Pow10(-v.exponent))
  }

  /** An optional sign, and what follows it. */
  function CutSign(s: string): (int, string) {
    if s != "" && s[0] == '-' then (-1, s[1..])
    else if s != "" && s[0] == '+' then (1, s[1..])
    else (1, s)
  }

  /** The exponent part, all of s; 0 when s is empty. */
  function ParseExponent(s: string): Option<int> {
    if s == "" then Some(0)
    else if s[0] != 'e' && s[0] != 'E' then None
    else
      var (sign, digits) := CutSign(s[1..]);
      if digits != "" && AllDigits(digits) then Some(sign * DigitsValue(digits)) else None
  }

  /** The digits and the point: the number without the point, how many of its digits stood behind
      the point, and what follows. */
  function CutDigits(t: string): Option<(nat, nat, string)> {
    var whole := DigitRun(t);
    if whole == |t| || t[whole] != '.' then
      if whole == 0 then None else Some((DigitsValue(t[..whole]), 0, t[whole..]))
    else
      var behind := t[whole + 1..];
      var frac := DigitRun(behind);
      if whole + frac == 0 then None else Some((DigitsValue(t[..whole] + behind[..frac]), frac, behind[frac..]))
  }

  function ParseUnsigned(t: string): Option<Number> {
    match CutDigits(t)
    case None => None
    case Some((digits, frac, rest)) =>
      match ParseExponent(rest)
      case Some(e) => Some(Number(digits, e - frac))
      case None => None
  }

  function ParseFloat(s: string): Option<Number> {
    var (sign, t) := CutSign(s);
    match ParseUnsigned(t)
    case Some(v) => Some(Number(sign * v.mantissa, v.exponent))
    case None => None
  }

  lemma CutDigitsPlain(whole: string, frac: string)
    requires AllDigits(whole) && AllDigits(frac) && whole != ""
    ensures CutDigits(whole + "." + frac) == Some((DigitsValue(whole + frac), |frac|, ""))
  {
    var s := whole + "." + frac;
    Associative(whole, ".", frac);
    DigitRunStops(whole, "." + frac);
    assert s[..|whole|] == whole && s[|whole|] == '.' && s[|whole| + 1..] == frac;
    assert frac + "" == frac;
    DigitRunStops(frac, "");
    assert frac[..|frac|] == frac && frac[|frac|..] == "";
  }

  lemma ParseFloatPlain(whole: string, frac: string)
    requires AllDigits(whole) && AllDigits(frac) && whole != ""
    ensures ParseFloat(whole + "." + frac) == Some(Number(DigitsValue(whole + frac), -|frac|))
  {
    assert (whole + "." + frac)[0] == whole[0] && IsDigit(whole[0]);
    CutDigitsPlain(whole, frac);
  }

  lemma ParseFloatWhole(whole: string)
    requires AllDigits(whole) && whole != ""
    ensures ParseFloat(whole) == Some(Number(DigitsValue(whole), 0))
  {
    assert IsDigit(whole[0]) && whole + "" == whole;
    DigitRunStops(whole, "");
    assert whole[..|whole|] == whole && whole[|whole|..] == "";
  }

  // ---------------------------------------------------------------- order

  lemma Scale(x: int, y: int, k: nat)
    requires x <= y
    ensures x * k <= y * k
  {
    assert (y - x) * k >= 0;
  }

  lemma Cancel(x: int, y: int, k: nat)
    requires x * k <= y * k && k > 0
    ensures x <= y
  {
    if y < x {
      Scale(y + 1, x, k);
    }
  }

  /** Floors of fractions keep the order of the fractions. */
  lemma FloorMonotone(a: nat, p: nat, b: nat, q: nat)
    requires p > 0 && q > 0 && a * q <= b * p
    ensures a / p <= b / q
  {
    var x, y := a / p, b / q;
    assert x * p <= a && b < y * q + q;
    Scale(x * p, a, q);
    assert x * p * q == x * q * p;
    Cancel(x * q, b, p);
    if y < x {
      Scale(y + 1, x, q);
    }
  }

  lemma Rearrange(a: int, k: int, q: int)
    ensures a * k * q == a * q * k
  {
  }

  lemma TruncateFraction(a: nat, f: nat, factor: nat)
    ensures Truncate(Number(a, 0 - f), factor) == a * factor / Pow10(f)
  {
    assert a * factor >= 0;
    if f == 0 {
      assert Pow10(0) == 1;
    }
  }

  // ---------------------------------------------------------------- signs and exponents

  lemma CutDigitsTail(whole: string, frac: string, tail: string)
    requires AllDigits(whole) && AllDigits(frac) && whole != "" && (tail != "" ==> !IsDigit(tail[0]))
    ensures CutDigits(whole + ("." + (frac + tail))) == Some((DigitsValue(whole + frac), |frac|, tail))
  {
    var t := whole + ("." + (frac + tail));
    DigitRunStops(whole, "." + (frac + tail));
    assert t[..|whole|] == whole && t[|whole|] == '.' && t[|whole| + 1..] == frac + tail;
    DigitRunStops(frac, tail);
    assert (frac + tail)[..|frac|] == frac && (frac + tail)[|frac|..] == tail;
  }

  lemma ExponentParses(e: string)
    requires AllDigits(e) && e != ""
    ensures ParseExponent("e" + e) == Some(DigitsValue(e) as int)
    ensures ParseExponent("e" + ("-" + e)) == Some(-(DigitsValue(e) as int))
  {
    assert ("e" + e)[1..] == e && IsDigit(e[0]);
    assert ("e" + ("-" + e))[1..] == "-" + e && ("-" + e)[1..] == e;
  }

  lemma CutParses(t: string, digits: nat, frac: nat, tail: string, e: int)
    requires CutDigits(t) == Some((digits, frac, tail)) && ParseExponent(tail) == Some(e)
    ensures ParseUnsigned(t) == Some(Number(digits, e - frac))
  {
  }

  /** An exponent shifts the number, and the digits behind the point shift it back. */
  lemma ExponentShifts(whole: string, frac: string, tail: string, e: int)
    requires AllDigits(whole) && AllDigits(frac) && whole != "" && (tail != "" ==> !IsDigit(tail[0]))
    requires ParseExponent(tail) == Some(e)
    ensures ParseUnsigned(whole + ("." + (frac + tail))) == Some(Number(DigitsValue(whole + frac), e - |frac|))
  {
    CutDigitsTail(whole, frac, tail);
    CutParses(whole + ("." + (frac + tail)), DigitsValue(whole + frac), |frac|, tail, e);
  }

  /** A sign turns the number, or leaves it. */
  lemma SignTurns(s: string, v: Number)
    requires s != "" && IsDigit(s[0]) && ParseUnsigned(s) == Some(v)
    ensures ParseFloat(s) == Some(v) && ParseFloat("+" + s) == Some(v)
    ensures ParseFloat("-" + s) == Some(Number(-v.mantissa, v.exponent))
  {
    assert ("-" + s)[1..] == s && ("+" + s)[1..] == s;
  }

  lemma QuotientTurns(a: int, b: nat)
    requires b > 0
    ensures Quotient(-a, b) == -Quotient(a, b) && (a >= 0 ==> Quotient(a, b) >= 0)
  {
    if a == 0 {
      assert 0 / b == 0;
    }
  }

  /** Conversion to an integer cuts off toward zero: a number and its negative differ in sign alone. */
  lemma TruncatesTowardZero(v: Number, factor: nat)
    ensures Truncate(Number(-v.mantissa, v.exponent), factor) == -Truncate(v, factor)
  {
    var product := v.mantissa * factor;
    assert -v.mantissa * factor == -product;
    if v.exponent < 0 {
      QuotientTurns(product, Pow10(-v.exponent));
    } else {
      assert -product * Pow10(v.exponent) == -(product * Pow10(v.exponent));
    }
  }
}
