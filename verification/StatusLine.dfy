/** The progress line the patched partclone writes to /tmp/status.fog, and the agent's reading of it. */
module StatusLine {
  import opened Decimal
  import opened GoText
  import opened Wrappers

  // ---------------------------------------------------------------- printing

  /** What partclone knows when it writes the line; speed and percent are in hundredths. */
  datatype Progress = Progress(
    speed: nat, unit: string,
    elapsed: string, remaining: string, current: string, total: string,
    percent: nat, totalBytes: nat)

  /** "%.2f" of a number of hundredths. */
  function Fixed2(n: nat): string {
    Itoa(n / 100) + "." + [DigitChar(n / 10 % 10), DigitChar(n % 10)]
  }

  function Spaces(n: nat): (s: string)
    ensures AllSpace(s) && |s| == n
  {
    seq(n, _ => ' ')
  }

  /** The padding of "%6.2f". */
  function Padding(n: nat): string {
    if |Fixed2(n)| >= 6 then "" else Spaces(6 - |Fixed2(n)|)
  }

  /** The fields before the last one. */
  function HeadFields(p: Progress): seq<string> {
    [Fixed2(p.speed) + p.unit, p.elapsed, p.remaining, p.current, p.total, Padding(p.percent) + Fixed2(p.percent)]
  }

  /** The line, from the first digit on, with a given last field. */
  function Body(p: Progress, tail: string): string {
    Join(HeadFields(p) + [tail], '@')
  }

  function Tail(p: Progress): string {
    Itoa(p.totalBytes) + ".000000"
  }

  /** fogLogStatusFile. */
  function Print(p: Progress): string {
    Padding(p.speed) + Body(p, Tail(p)) + "\n"
  }

  predicate Plain(field: string) {
    forall i | 0 <= i < |field| :: field[i] != '@' && field[i] != '\n'
  }

  /** What the caller of fogLogStatusFile supplies: fields without separators, and a unit of speed. */
  predicate Printable(p: Progress) {
    && Plain(p.elapsed) && Plain(p.remaining) && Plain(p.current) && Plain(p.total)
    && Plain(p.unit) && p.unit != "" && !IsSpace(p.unit[|p.unit| - 1])
    && !IsDigit(p.unit[0]) && p.unit[0] != '.'
  }

  // ---------------------------------------------------------------- reading

  /** The text after the last newline. */
  function LastLine(s: string): string {
    if s == "" || s[|s| - 1] == '\n' then "" else LastLine(s[..|s| - 1]) + [s[|s| - 1]]
  }

  predicate IsNumeric(c: char) {
    c == '.' || IsDigit(c)
  }

  /** The length of the longest prefix of s that is all of one kind: numeric, or not. */
  function RunLength(s: string, numeric: bool): (n: nat)
    ensures n <= |s| && forall i | 0 <= i < n :: IsNumeric(s[i]) == numeric
    ensures n < |s| ==> IsNumeric(s[n]) != numeric
  {
    if s != "" && IsNumeric(s[0]) == numeric then 1 + RunLength(s[1..], numeric) else 0
  }

  function Multiplier(unit: string): nat {
    if unit == "KB/MIN" then 8_000
    else if unit == "MB/MIN" then 8_000_000
    else if unit == "GB/MIN" then 8_000_000_000
    else if unit == "TB/MIN" then 8_000_000_000_000
    else 1
  }

  function Speed(number: string, unit: string): int {
    match ParseFloat(number)
    case Some(v) => Truncate(v, Multiplier(ToUpper(TrimSpace(unit))))
    case None => 0
  }

  function SpeedBpm(s: string): int {
    var t := s[RunLength(s, false)..];
    var n := RunLength(t, true);
    if t == "" then 0 else Speed(t[..n], t[n..])
  }

  /** The scan for the end of the number. */
  method ScanNumber(s: string, start: nat) returns (end: nat)
    requires start <= |s|
    ensures start <= end <= |s| && end == start + RunLength(s[start..], true)
  {
    end := start;
    while end < |s| && (s[end] == '.' || IsDigit(s[end]))
      invariant start <= end <= |s|
      invariant end + RunLength(s[end..], true) == start + RunLength(s[start..], true)
    {
      assert s[end..][1..] == s[end + 1..];
      end := end + 1;
    }
  }

  /** parseSpeedBpm. */
  method ParseSpeedBpm(s: string) returns (bpm: int)
    ensures bpm == SpeedBpm(s)
  {
    var start := RunLength(s, false);
    if start == |s| {
      return 0;
    }
    var end := ScanNumber(s, start);
    assert s[start..][..end - start] == s[start..end] && s[start..][end - start..] == s[end..];
    bpm := Speed(s[start..end], s[end..]);
  }

  /** readStatus: the percent and bits per minute it calls back with, if it does. */
  function ReadStatus(data: string): Option<(int, int)> {
    var parts := Split(TrimSpace(LastLine(TrimSpace(data))), '@');
    if |parts| < 7 then None
    else
      match ParseFloat(TrimSpace(parts[5]))
      case Some(v) => Some((Truncate(v, 1), SpeedBpm(TrimSpace(parts[0]))))
      case None => None
  }

  lemma {:induction false} NothingNumeric(s: string)
    requires forall i | 0 <= i < |s| :: !IsNumeric(s[i])
    ensures RunLength(s, false) == |s|
  {
    if s != "" {
      NothingNumeric(s[1..]);
    }
  }

  /** A text without a number reads as no speed. */
  lemma NoSpeed(s: string)
    requires forall i | 0 <= i < |s| :: !IsNumeric(s[i])
    ensures SpeedBpm(s) == 0
  {
    NothingNumeric(s);
  }

  /** And so does a number with two points. */
  lemma TwoPoints(unit: string)
    ensures Speed("1.2.3", unit) == 0
  {
    var t := "1.2.3";
    assert t[0..] == t && t[2..] == "2.3" && "2.3"[1..] == ".3";
    assert ParseUnsigned(t).None?;
  }

  // ---------------------------------------------------------------- numbers

  lemma Fixed2Digits(n: nat)
    ensures AllDigits(Itoa(n / 100) + [DigitChar(n / 10 % 10), DigitChar(n % 10)])
    ensures DigitsValue(Itoa(n / 100) + [DigitChar(n / 10 % 10), DigitChar(n % 10)]) == n
  {
    var a, d, e := Itoa(n / 100), DigitChar(n / 10 % 10), DigitChar(n % 10);
    DigitsValueOfItoa(n / 100);
    OneMoreDigit(a, d);
    OneMoreDigit(a + [d], e);
    assert a + [d] + [e] == a + [d, e];
    assert n / 10 / 10 == n / 100;
  }

  lemma Fixed2Parses(n: nat)
    ensures ParseFloat(Fixed2(n)) == Some(Number(n, -2))
  {
    Fixed2Digits(n);
    ParseFloatPlain(Itoa(n / 100), [DigitChar(n / 10 % 10), DigitChar(n % 10)]);
  }

  lemma TruncateHundredths(n: nat, factor: nat)
    ensures Truncate(Number(n, -2), factor) == n * factor / 100
  {
    assert Pow10(2) == 100 by {
      assert Pow10(1) == 10 * Pow10(0);
    }
  }

  lemma {:induction false} RunLengthStops(a: string, b: string, numeric: bool)
    requires forall i | 0 <= i < |a| :: IsNumeric(a[i]) == numeric
    requires b != "" ==> IsNumeric(b[0]) != numeric
    ensures RunLength(a + b, numeric) == |a|
  {
    if a == "" {
      assert a + b == b;
    } else {
      assert (a + b)[1..] == a[1..] + b;
      RunLengthStops(a[1..], b, numeric);
    }
  }

  /** The first field read back, for every unit: hundredths times the multiplier of the unit. */
  lemma SpeedField(p: Progress)
    requires Printable(p)
    ensures SpeedBpm(TrimSpace(Fixed2(p.speed) + p.unit))
      == p.speed * Multiplier(ToUpper(TrimSpace(p.unit))) / 100
  {
    var num := Fixed2(p.speed);
    var s := num + p.unit;
    assert s[0] == Itoa(p.speed / 100)[0];
    assert s[|s| - 1] == p.unit[|p.unit| - 1];
    TrimSpaceOfPadded("", s, "");
    assert "" + s + "" == s;
    RunLengthStops("", s, false);
    assert "" + s == s && s[0..] == s;
    RunLengthStops(num, p.unit, true);
    assert s[..|num|] == num && s[|num|..] == p.unit;
    Fixed2Parses(p.speed);
    TruncateHundredths(p.speed, Multiplier(ToUpper(TrimSpace(p.unit))));
  }

  lemma PercentField(n: nat)
    ensures TrimSpace(Padding(n) + Fixed2(n)) == Fixed2(n)
    ensures Truncate(Number(n, -2), 1) == n / 100
  {
    var s := Fixed2(n);
    assert s[0] == Itoa(n / 100)[0] && IsDigit(s[|s| - 1]);
    TrimSpaceOfPadded(Padding(n), s, "");
    assert Padding(n) + s + "" == Padding(n) + s;
    TruncateHundredths(n, 1);
  }

  // ---------------------------------------------------------------- lines

  lemma {:induction false} LastLineAfter(before: string, line: string)
    requires before == "" || before[|before| - 1] == '\n'
    requires forall i | 0 <= i < |line| :: line[i] != '\n'
    ensures LastLine(before + line) == line
  {
    if line == "" {
      assert before + line == before;
    } else {
      assert (before + line)[..|before + line| - 1] == before + line[..|line| - 1];
      LastLineAfter(before, line[..|line| - 1]);
    }
  }

  /** Trimming on the left stops at the text at the latest. */
  lemma {:induction false} TrimLeftBefore(a: string, text: string) returns (k: nat)
    requires text != "" && !IsSpace(text[0])
    ensures k <= |a| && TrimLeft(a + text) == a[k..] + text
    ensures k < |a| ==> !IsSpace(a[k])
  {
    k := 0;
    if a == "" {
      assert a + text == text;
    } else if IsSpace(a[0]) {
      assert (a + text)[1..] == a[1..] + text;
      k := TrimLeftBefore(a[1..], text);
      assert a[1..][k..] == a[k + 1..];
      k := k + 1;
    } else {
      assert a[0..] == a;
    }
  }

  lemma TrimmedEnds(above: string, text: string, end: string) returns (k: nat)
    requires text != "" && !IsSpace(text[0]) && !IsSpace(text[|text| - 1]) && AllSpace(end)
    ensures k <= |above| && TrimSpace(above + text + end) == above[k..] + text
    ensures k < |above| ==> !IsSpace(above[k])
  {
    Associative(above, text, end);
    k := TrimLeftBefore(above, text + end);
    var left := above[k..];
    Associative(left, text, end);
    assert (left + text)[|left + text| - 1] == text[|text| - 1];
    TrimRightSkips(left + text, end);
  }

  predicate NewlineFree(s: string) {
    forall i | 0 <= i < |s| :: s[i] != '\n'
  }

  /** The last line alone counts, without the space around it, whatever lines stand above it. */
  lemma LastLineCounts(stale: string, pad: string, text: string, end: string)
    requires stale == "" || stale[|stale| - 1] == '\n'
    requires AllSpace(pad) && AllSpace(end) && NewlineFree(pad) && NewlineFree(text)
    requires text != "" && !IsSpace(text[0]) && !IsSpace(text[|text| - 1])
    ensures TrimSpace(LastLine(TrimSpace(stale + pad + text + end))) == text
  {
    var above := stale + pad;
    var k := TrimmedEnds(above, text, end);
    if k < |above| {
      assert above[k..] == stale[k..] + pad;
      Associative(stale[k..], pad, text);
      LastLineAfter(stale[k..], pad + text);
      TrimLeftSkips(pad, text);
    } else {
      assert above[k..] + text == "" + text && "" + text == text;
      LastLineAfter("", text);
      TrimLeftSkips("", text);
    }
    TrimRightSkips(text, "");
    assert text + "" == text;
  }

  // ---------------------------------------------------------------- the round trip

  /** What the agent is meant to learn from the line. */
  function Reading(p: Progress): (int, int) {
    (p.percent / 100, p.speed * Multiplier(ToUpper(TrimSpace(p.unit))) / 100)
  }

  lemma BodySplits(p: Progress, tail: string)
    requires Printable(p) && Plain(tail)
    ensures Split(Body(p, tail), '@') == HeadFields(p) + [tail]
  {
    Fixed2Plain(p.speed);
    Fixed2Plain(p.percent);
    SplitJoin(HeadFields(p) + [tail], '@');
  }

  lemma Fixed2Plain(n: nat)
    ensures Plain(Fixed2(n)) && IsDigit(Fixed2(n)[0])
  {
    var s := Itoa(n / 100);
    assert Fixed2(n)[0] == s[0];
    assert forall i | 0 <= i < |s| :: IsDigit(s[i]);
  }

  lemma BodyEnds(p: Progress, tail: string)
    requires Printable(p) && Plain(tail)
    ensures var b := Body(p, tail);
      b != "" && IsDigit(b[0]) && b[|b| - 1] == (if tail == "" then '@' else tail[|tail| - 1])
    ensures NewlineFree(Body(p, tail))
  {
    Fixed2Plain(p.speed);
    Fixed2Plain(p.percent);
    JoinEnds(HeadFields(p), tail);
  }

  lemma {:induction false} JoinEnds(fields: seq<string>, tail: string)
    requires fields != [] && Plain(tail) && forall i | 0 <= i < |fields| :: Plain(fields[i])
    ensures var b := Join(fields + [tail], '@');
      b != "" && NewlineFree(b) && b[|b| - 1] == (if tail == "" then '@' else tail[|tail| - 1])
      && b[0] == (fields[0] + "@")[0]
  {
    assert (fields + [tail])[1..] == fields[1..] + [tail];
    if |fields| == 1 {
      assert fields[1..] + [tail] == [tail];
    } else {
      JoinEnds(fields[1..], tail);
    }
  }

  lemma ReadBody(p: Progress, stale: string, tail: string, end: string)
    requires Printable(p)
    requires stale == "" || stale[|stale| - 1] == '\n'
    requires AllSpace(end) && Plain(tail) && (tail != "" ==> !IsSpace(tail[|tail| - 1]))
    ensures ReadStatus(stale + Padding(p.speed) + Body(p, tail) + end) == Some(Reading(p))
  {
    BodyEnds(p, tail);
    LastLineCounts(stale, Padding(p.speed), Body(p, tail), end);
    BodySplits(p, tail);
    SpeedField(p);
    PercentField(p.percent);
    Fixed2Parses(p.percent);
  }

  /** The line read back: floor percent and the speed in bits per minute, whatever lines precede it. */
  lemma PrintReadRoundTrip(p: Progress, stale: string)
    requires Printable(p) && (stale == "" || stale[|stale| - 1] == '\n')
    ensures ReadStatus(stale + Print(p)) == Some(Reading(p))
  {
    var pad, body := Padding(p.speed), Body(p, Tail(p));
    Associative(stale, pad + body, "\n");
    Associative(stale, pad, body);
    ReadBody(p, stale, Tail(p), "\n");
  }

  lemma UnitName(c: char)
    requires 'A' <= c <= 'Z'
    ensures ToUpper(TrimSpace([c] + "B/min")) == [c] + "B/MIN"
  {
    var u := [c] + "B/min";
    TrimSpaceOfPadded("", u, "");
    assert "" + u + "" == u;
    assert ToUpper(u) == [c] + "B/MIN";
  }

  lemma PowersOfTen()
    ensures Pow10(3) == 1_000 && Pow10(6) == 1_000_000
    ensures Pow10(9) == 1_000_000_000 && Pow10(12) == 1_000_000_000_000
  {
    assert Pow10(3) == 1_000;
    assert Pow10(6) == 1_000 * Pow10(3);
    assert Pow10(9) == 1_000 * Pow10(6);
    assert Pow10(12) == 1_000 * Pow10(9);
  }

  lemma UnitMultiplier(c: char)
    requires c in "KMGT"
    ensures Multiplier([c] + "B/MIN")
      == if c == 'K' then 8_000 else if c == 'M' then 8_000_000
         else if c == 'G' then 8_000_000_000 else 8_000_000_000_000
  {
    assert ([c] + "B/MIN")[0] == c;
    assert ['K'] + "B/MIN" == "KB/MIN" && ['M'] + "B/MIN" == "MB/MIN";
    assert ['G'] + "B/MIN" == "GB/MIN" && ['T'] + "B/MIN" == "TB/MIN";
  }

  /** The decimal units of partclone: 8 * 10^3, 10^6, 10^9 and 10^12 bits. */
  lemma KnownUnit(c: char)
    requires c in "KMGT"
    ensures Multiplier(ToUpper(TrimSpace([c] + "B/min")))
      == 8 * Pow10(if c == 'K' then 3 else if c == 'M' then 6 else if c == 'G' then 9 else 12)
  {
    PowersOfTen();
    UnitName(c);
    UnitMultiplier(c);
  }

  /** In these units the speed is exact: nothing is lost in the division by 100. */
  lemma KnownUnitIsExact(p: Progress, c: char)
    requires c in "KMGT" && p.unit == [c] + "B/min"
    ensures Reading(p).1 * 100
      == p.speed * (8 * Pow10(if c == 'K' then 3 else if c == 'M' then 6 else if c == 'G' then 9 else 12))
  {
    KnownUnit(c);
    PowersOfTen();
    var m := Multiplier(ToUpper(TrimSpace(p.unit)));
    assert m == m / 100 * 100;
    WholeHundreds(p.speed, m / 100);
  }

  lemma WholeHundreds(speed: nat, j: nat)
    ensures speed * (j * 100) / 100 * 100 == speed * (j * 100)
  {
    assert speed * (j * 100) == speed * j * 100;
  }

  // ---------------------------------------------------------------- other units

  /** The unit as the agent compares it, and the four names it knows. */
  function NameOf(unit: string): string {
    ToUpper(TrimSpace(unit))
  }

  const NAMES: seq<string> := ["KB/MIN", "MB/MIN", "GB/MIN", "TB/MIN"]

  function BytesOf(name: string): nat
    requires name in NAMES
  {
    if name == NAMES[0] then Pow10(3) else if name == NAMES[1] then Pow10(6)
    else if name == NAMES[2] then Pow10(9) else Pow10(12)
  }

  lemma MultiplierByName(name: string)
    ensures name in NAMES ==> Multiplier(name) == 8 * BytesOf(name)
    ensures name !in NAMES ==> Multiplier(name) == 1
  {
    PowersOfTen();
  }

  lemma EightTimesMore(speed: nat, eight: nat)
    requires eight >= 8
    ensures speed * eight / 100 == speed / 100 <==> speed * eight < 100
  {
    Scale(8, eight, speed);
    assert speed * eight >= 8 * speed;
  }

  lemma RightIff(speed: nat, name: string, bytes: nat)
    requires bytes >= 1 && (name in NAMES ==> bytes == BytesOf(name))
    ensures speed * Multiplier(name) / 100 == speed * (8 * bytes) / 100 <==>
      name in NAMES || speed * (8 * bytes) < 100
    ensures name !in NAMES ==> speed * Multiplier(name) / 100 == speed / 100
  {
    MultiplierByName(name);
    EightTimesMore(speed, 8 * bytes);
  }

  /** When the line tells the truth: of a unit that stands for so many bytes a minute the agent learns
      the bits a minute exactly when it is one of the four names, or when they come to less than one.
      Every other unit, plain bytes included, is taken for bits. */
  lemma SpeedReadsRightIff(p: Progress, stale: string, bytes: nat)
    requires Printable(p) && (stale == "" || stale[|stale| - 1] == '\n') && bytes >= 1
    requires NameOf(p.unit) in NAMES ==> bytes == BytesOf(NameOf(p.unit))
    ensures var bits := p.speed * (8 * bytes);
      ReadStatus(stale + Print(p)) == Some((p.percent / 100, bits / 100)) <==>
        NameOf(p.unit) in NAMES || bits < 100
    ensures NameOf(p.unit) !in NAMES ==> ReadStatus(stale + Print(p)) == Some((p.percent / 100, p.speed / 100))
  {
    var read := ReadStatus(stale + Print(p));
    assert read == Some((p.percent / 100, p.speed * Multiplier(NameOf(p.unit)) / 100)) by {
      PrintReadRoundTrip(p, stale);
    }
    RightIff(p.speed, NameOf(p.unit), bytes);
  }

  /** Plain bytes a minute are taken for bits, an eighth of what they are. */
  lemma BytesReadAsBits(p: Progress, stale: string)
    requires Printable(p) && (stale == "" || stale[|stale| - 1] == '\n') && p.unit == "B/min"
    ensures ReadStatus(stale + Print(p)) == Some((p.percent / 100, p.speed / 100))
    ensures p.speed / 100 == p.speed * 8 / 100 <==> p.speed * 8 < 100
  {
    PlainBytesName();
    SpeedReadsRightIff(p, stale, 1);
  }

  lemma PlainBytesName()
    ensures NameOf("B/min") !in NAMES
  {
    var unit := "B/min";
    TrimSpaceOfPadded("", unit, "");
    assert "" + unit + "" == unit;
    assert NameOf(unit)[0] == 'B';
  }

  /** Progress at 500.00 bytes a minute and 25 percent. */
  lemma PlainBytes() returns (p: Progress)
    ensures Printable(p) && p.unit == "B/min"
    ensures p.speed / 100 == 500 && p.speed * 8 / 100 == 4_000 && p.percent / 100 == 25
  {
    p := Progress(50_000, "B/min", "00:00:01", "00:00:03", "128 MiB", "1 GiB", 2_500, 1_073_741_824);
    assert p.unit[0] == 'B' && p.unit[|p.unit| - 1] == 'n';
  }

  /** A line that reads wrong: 500 bytes a minute, 4000 bits, are reported as 500 bits. */
  lemma WrongLine(stale: string) returns (p: Progress)
    requires stale == "" || stale[|stale| - 1] == '\n'
    ensures Printable(p) && p.unit == "B/min" && p.speed * 8 / 100 == 4_000
    ensures ReadStatus(stale + Print(p)) == Some((25, 500))
  {
    p := PlainBytes();
    BytesReadAsBits(p, stale);
  }

  // ---------------------------------------------------------------- torn reads

  function CountOf(s: string, c: char): nat {
    if s == "" then 0 else (if s[0] == c then 1 else 0) + CountOf(s[1..], c)
  }

  lemma {:induction false} CountAppend(a: string, b: string, c: char)
    ensures CountOf(a + b, c) == CountOf(a, c) + CountOf(b, c)
  {
    if a == "" {
      assert a + b == b;
    } else {
      assert (a + b)[1..] == a[1..] + b;
      CountAppend(a[1..], b, c);
    }
  }

  lemma {:induction false} CountNone(s: string, c: char)
    requires c !in s
    ensures CountOf(s, c) == 0
  {
    if s != "" {
      CountNone(s[1..], c);
    }
  }

  /** Split makes one part more than there are separators. */
  lemma {:induction false} SplitCount(s: string, c: char)
    ensures |Split(s, c)| == CountOf(s, c) + 1
    decreases |s|
  {
    var i := IndexOf(s, c);
    assert c !in s[..i];
    CountNone(s[..i], c);
    if i == |s| {
      assert s[..i] == s;
    } else {
      assert s == s[..i] + ([c] + s[i + 1..]);
      assert ([c] + s[i + 1..])[1..] == s[i + 1..];
      CountAppend(s[..i], [c] + s[i + 1..], c);
      SplitCount(s[i + 1..], c);
    }
  }

  /** Neither trimming nor taking the last line adds a separator. */
  lemma {:induction false} TrimLeftCount(s: string, c: char)
    ensures CountOf(TrimLeft(s), c) <= CountOf(s, c)
  {
    if s != "" && IsSpace(s[0]) {
      TrimLeftCount(s[1..], c);
    }
  }

  lemma {:induction false} TrimRightCount(s: string, c: char)
    ensures CountOf(TrimRight(s), c) <= CountOf(s, c)
  {
    if s != "" && IsSpace(s[|s| - 1]) {
      TrimRightCount(s[..|s| - 1], c);
      assert s == s[..|s| - 1] + [s[|s| - 1]];
      CountAppend(s[..|s| - 1], [s[|s| - 1]], c);
    }
  }

  lemma {:induction false} LastLineCount(s: string, c: char)
    ensures CountOf(LastLine(s), c) <= CountOf(s, c)
  {
    if s != "" && s[|s| - 1] != '\n' {
      var init, last := s[..|s| - 1], [s[|s| - 1]];
      LastLineCount(init, c);
      assert s == init + last;
      CountAppend(init, last, c);
      CountAppend(LastLine(init), last, c);
    }
  }

  lemma FewSeparatorsReadNothing(data: string)
    requires CountOf(data, '@') < 6
    ensures ReadStatus(data).None?
  {
    var a := TrimSpace(data);
    TrimLeftCount(data, '@');
    TrimRightCount(TrimLeft(data), '@');
    LastLineCount(a, '@');
    TrimLeftCount(LastLine(a), '@');
    TrimRightCount(TrimLeft(LastLine(a)), '@');
    SplitCount(TrimSpace(LastLine(a)), '@');
  }

  lemma PadCount(n: nat)
    ensures '@' !in Padding(n)
  {
  }

  lemma BodyCount(p: Progress)
    requires Printable(p)
    ensures CountOf(Body(p, ""), '@') == 6
  {
    BodySplits(p, "");
    SplitCount(Body(p, ""), '@');
  }

  lemma CutHeadReadsNothing(p: Progress, n: nat)
    requires Printable(p) && n < |Padding(p.speed) + Body(p, "")|
    ensures ReadStatus((Padding(p.speed) + Body(p, ""))[..n]).None?
  {
    var head := Padding(p.speed) + Body(p, "");
    BodyCount(p);
    BodyEnds(p, "");
    PadCount(p.speed);
    CountNone(Padding(p.speed), '@');
    CountAppend(Padding(p.speed), Body(p, ""), '@');
    // The last character of the head is its sixth separator.
    var init := head[..|head| - 1];
    assert head == init + "@";
    CountAppend(init, "@", '@');
    assert init == head[..n] + init[n..];
    CountAppend(head[..n], init[n..], '@');
    FewSeparatorsReadNothing(head[..n]);
  }

  lemma CutTailReadsAll(p: Progress, m: nat)
    requires Printable(p) && m <= |Tail(p) + "\n"|
    ensures ReadStatus(Padding(p.speed) + Body(p, "") + (Tail(p) + "\n")[..m]) == Some(Reading(p))
  {
    var tail, end := Tail(p), "\n";
    assert AllDigits(Itoa(p.totalBytes));
    assert forall i | 0 <= i < |tail| :: IsDigit(tail[i]) || tail[i] == '.';
    var part := if m <= |tail| then tail[..m] else tail;
    var left := if m <= |tail| then "" else end;
    assert (tail + end)[..m] == part + left;
    JoinLast(HeadFields(p), part, '@');
    Associative(Padding(p.speed), Body(p, ""), part);
    Associative(Padding(p.speed) + Body(p, ""), part, left);
    ReadBody(p, "", part, left);
    assert "" + Padding(p.speed) == Padding(p.speed);
  }

  lemma PrintParts(p: Progress)
    ensures Print(p) == Padding(p.speed) + Body(p, "") + (Tail(p) + "\n")
  {
    JoinLast(HeadFields(p), Tail(p), '@');
    Associative(Padding(p.speed), Body(p, ""), Tail(p));
    Associative(Padding(p.speed) + Body(p, ""), Tail(p), "\n");
  }

  lemma PrefixOfTwo(a: string, b: string, n: nat)
    requires n <= |a + b|
    ensures (a + b)[..n] == if n < |a| then a[..n] else a + b[..n - |a|]
  {
  }

  /** A read that catches the file half written says nothing or the truth: no prefix of the line
      reads as anything else. */
  lemma TornReadIsHarmless(p: Progress, n: nat)
    requires Printable(p) && n <= |Print(p)|
    ensures ReadStatus(Print(p)[..n]) == None || ReadStatus(Print(p)[..n]) == Some(Reading(p))
  {
    var head := Padding(p.speed) + Body(p, "");
    PrintParts(p);
    PrefixOfTwo(head, Tail(p) + "\n", n);
    if n < |head| {
      CutHeadReadsNothing(p, n);
    } else {
      CutTailReadsAll(p, n - |head|);
    }
  }

  // ---------------------------------------------------------------- sizes

  function Pow1024(n: nat): (p: real)
    ensures p >= 1.0
  {
    if n == 0 then 1.0 else 1024.0 * Pow1024(n - 1)
  }

  /** filesize_conv up to its formatting: the size in the unit it is printed in, and the index of
      that unit, which is also the number of decimals. */
  method FilesizeConv(size: real) returns (scaled: real, i: nat)
    requires size >= 0.0
    ensures scaled * Pow1024(i) == size && scaled <= 1024.0
    ensures i > 0 ==> scaled > 1.0
  {
    scaled, i := size, 0;
    while scaled > 1024.0
      invariant scaled * Pow1024(i) == size
      invariant i > 0 ==> scaled > 1.0
      decreases scaled.Floor
    {
      var next := scaled / 1024.0;
      assert next * Pow1024(i + 1) == next * 1024.0 * Pow1024(i);
      assert scaled.Floor > next.Floor by {
        assert scaled - next > 1.0;
      }
      scaled, i := next, i + 1;
    }
  }

  /** A product of 64-bit integers never leaves the table of units: its unit is EiB at most. */
  lemma IntegersFit(size: real, scaled: real, i: nat)
    requires scaled * Pow1024(i) == size && (i > 0 ==> scaled > 1.0)
    ensures size <= 18446744073709551616.0 ==> i <= 6
  {
    if i > 6 {
      PowMonotone(7, i);
      assert scaled * Pow1024(i) > 1.0 * Pow1024(i);
      assert Pow1024(7) == 1180591620717411303424.0;
    }
  }

  /** The nine units suffice exactly up to 1024 to the ninth: beyond, the unit index runs off the table. */
  lemma UnitsSufficeIff(size: real, scaled: real, i: nat)
    requires scaled * Pow1024(i) == size && scaled <= 1024.0 && (i > 0 ==> scaled > 1.0)
    ensures i <= 8 <==> size <= Pow1024(9)
  {
    if i <= 8 {
      PowMonotone(i, 8);
      assert scaled * Pow1024(i) <= 1024.0 * Pow1024(i) <= 1024.0 * Pow1024(8);
    } else {
      PowMonotone(9, i);
      assert scaled * Pow1024(i) > 1.0 * Pow1024(i);
    }
  }

  lemma {:induction false} PowMonotone(m: nat, n: nat)
    requires m <= n
    ensures Pow1024(m) <= Pow1024(n)
    decreases n - m
  {
    if m < n {
      PowMonotone(m + 1, n);
    }
  }

  // ---------------------------------------------------------------- the printed text

  /** The line as its format string has it, field by field. */
  lemma PrintedLine(p: Progress)
    ensures Print(p) == Padding(p.speed) + (Fixed2(p.speed) + p.unit + "@" + (p.elapsed + "@" + (p.remaining + "@"
      + (p.current + "@" + (p.total + "@" + (Padding(p.percent) + Fixed2(p.percent) + "@"
      + (Itoa(p.totalBytes) + ".000000"))))))) + "\n"
  {
    var last := [Tail(p)];
    var f := HeadFields(p);
    assert f + last == [f[0], f[1], f[2], f[3], f[4], f[5], Tail(p)];
    assert Join(last, '@') == Tail(p);
    assert Join(f[5..] + last, '@') == f[5] + "@" + Tail(p) by {
      assert (f[5..] + last)[1..] == last;
    }
    JoinStep(f, 4, last);
    JoinStep(f, 3, last);
    JoinStep(f, 2, last);
    JoinStep(f, 1, last);
    JoinStep(f, 0, last);
    assert f[0..] == f;
  }

  lemma JoinStep(f: seq<string>, i: nat, last: seq<string>)
    requires i < |f| && last != []
    ensures Join(f[i..] + last, '@') == f[i] + "@" + Join(f[i + 1..] + last, '@')
  {
    assert (f[i..] + last)[1..] == f[i + 1..] + last;
  }

  /** Two decimals, padded to six characters. */
  lemma PrintedNumbers()
    ensures Fixed2(123) == "1.23" && Fixed2(2_500) == "25.00" && Fixed2(5) == "0.05"
    ensures forall n :: |Padding(n)| == if |Fixed2(n)| < 6 then 6 - |Fixed2(n)| else 0
    ensures forall n, i | 0 <= i < |Padding(n)| :: Padding(n)[i] == ' '
  {
    assert Itoa(1) == "1" && Itoa(0) == "0" && Itoa(25) == Itoa(2) + "5" && Itoa(2) == "2";
  }
}
