/** Strings as the Go standard library cuts them: decimal numbers, splitting, trimming, letter case. */
module GoText {
  import opened Wrappers

  predicate IsDigit(c: char) {
    '0' <= c <= '9'
  }

  function DigitChar(d: nat): char
    requires d < 10
  {
    ('0' as int + d) as char
  }

  function DigitValue(c: char): (d: nat)
    requires IsDigit(c)
    ensures d < 10
  {
    c as int - '0' as int
  }

  predicate AllDigits(s: string) {
    forall i | 0 <= i < |s| :: IsDigit(s[i])
  }

  /** How many digits s starts with. */
  function DigitRun(s: string): (n: nat)
    ensures n <= |s| && AllDigits(s[..n])
    ensures n < |s| ==> !IsDigit(s[n])
  {
    if s != "" && IsDigit(s[0]) then 1 + DigitRun(s[1..]) else 0
  }

  /** A run of digits ends where something else starts. */
  lemma {:induction false} DigitRunStops(digits: string, rest: string)
    requires AllDigits(digits) && (rest != "" ==> !IsDigit(rest[0]))
    ensures DigitRun(digits + rest) == |digits|
  {
    if digits == "" {
      assert digits + rest == rest;
    } else {
      assert (digits + rest)[1..] == digits[1..] + rest;
      DigitRunStops(digits[1..], rest);
    }
  }

  /** strconv.Itoa on a non-negative number. */
  function Itoa(n: nat): (s: string)
    ensures |s| >= 1 && AllDigits(s)
  {
    if n < 10 then [DigitChar(n)] else Itoa(n / 10) + [DigitChar(n % 10)]
  }

  /** The number a string of decimal digits denotes, 0 for the empty string. */
  function DigitsValue(s: string): nat
    requires AllDigits(s)
  {
    if s == "" then 0 else 10 * DigitsValue(s[..|s| - 1]) + DigitValue(s[|s| - 1])
  }

  lemma OneMoreDigit(s: string, c: char)
    requires AllDigits(s) && IsDigit(c)
    ensures AllDigits(s + [c]) && DigitsValue(s + [c]) == 10 * DigitsValue(s) + DigitValue(c)
  {
    assert (s + [c])[..|s + [c]| - 1] == s;
  }

  lemma {:induction false} DigitsValueOfItoa(n: nat)
    ensures DigitsValue(Itoa(n)) == n
  {
    if n >= 10 {
      DigitsValueOfItoa(n / 10);
      OneMoreDigit(Itoa(n / 10), DigitChar(n % 10));
    }
  }

  /** No leading zero: the one text of n. */
  lemma {:induction false} ItoaIsCanonical(n: nat)
    ensures if n == 0 then Itoa(n) == "0" else Itoa(n)[0] != '0'
  {
    if n >= 10 {
      ItoaIsCanonical(n / 10);
    }
  }

  // ---------------------------------------------------------------- white space

  /** unicode.IsSpace. */
  predicate IsSpace(c: char) {
    '\t' <= c <= '\r' || c == ' ' || c == '\U{85}' || c == '\U{A0}' || c == '\U{1680}' || '\U{2000}' <= c <= '\U{200A}'
    || c == '\U{2028}' || c == '\U{2029}' || c == '\U{202F}' || c == '\U{205F}' || c == '\U{3000}'
  }

  /** The code points of white space, by number. */
  lemma WhiteSpace(c: char)
    ensures IsSpace(c) <==> (c as int in {9, 10, 11, 12, 13, 32, 133, 160, 5760, 8232, 8233, 8239, 8287, 12288}
                             || 8192 <= c as int <= 8202)
  {
  }

  predicate SpaceFree(s: string) {
    forall i | 0 <= i < |s| :: !IsSpace(s[i])
  }

  predicate AllSpace(s: string) {
    forall i | 0 <= i < |s| :: IsSpace(s[i])
  }

  function TrimLeft(s: string): string {
    if s != "" && IsSpace(s[0]) then TrimLeft(s[1..]) else s
  }

  function TrimRight(s: string): string {
    if s != "" && IsSpace(s[|s| - 1]) then TrimRight(s[..|s| - 1]) else s
  }

  function TrimSpace(s: string): string {
    TrimRight(TrimLeft(s))
  }

  /** Leading space is cut off, whatever follows. */
  lemma {:induction false} TrimLeftSkips(pad: string, s: string)
    requires AllSpace(pad)
    requires s != "" ==> !IsSpace(s[0])
    ensures TrimLeft(pad + s) == s
  {
    if pad == "" {
      assert pad + s == s;
    } else {
      assert (pad + s)[1..] == pad[1..] + s;
      TrimLeftSkips(pad[1..], s);
    }
  }

  lemma {:induction false} TrimRightSkips(s: string, pad: string)
    requires AllSpace(pad)
    requires s != "" ==> !IsSpace(s[|s| - 1])
    ensures TrimRight(s + pad) == s
  {
    if pad == "" {
      assert s + pad == s;
    } else {
      assert (s + pad)[..|s + pad| - 1] == s + pad[..|pad| - 1];
      TrimRightSkips(s, pad[..|pad| - 1]);
    }
  }

  /** What is left of a string whose own ends are not space, once it is padded on both sides. */
  lemma TrimSpaceOfPadded(left: string, s: string, right: string)
    requires AllSpace(left) && AllSpace(right)
    requires s != "" && !IsSpace(s[0]) && !IsSpace(s[|s| - 1])
    ensures TrimSpace(left + s + right) == s
  {
    assert left + s + right == left + (s + right);
    TrimLeftSkips(left, s + right);
    TrimRightSkips(s, right);
  }

  lemma {:induction false} TrimLeftSplits(s: string) returns (pad: string)
    ensures s == pad + TrimLeft(s) && AllSpace(pad)
    ensures TrimLeft(s) != "" ==> !IsSpace(TrimLeft(s)[0])
  {
    pad := "";
    if s != "" && IsSpace(s[0]) {
      pad := TrimLeftSplits(s[1..]);
      assert s == [s[0]] + s[1..];
      pad := [s[0]] + pad;
    }
  }

  lemma {:induction false} TrimRightSplits(s: string) returns (pad: string)
    ensures s == TrimRight(s) + pad && AllSpace(pad)
    ensures TrimRight(s) != "" ==> !IsSpace(TrimRight(s)[|TrimRight(s)| - 1])
  {
    pad := "";
    if s != "" && IsSpace(s[|s| - 1]) {
      pad := TrimRightSplits(s[..|s| - 1]);
      assert s == s[..|s| - 1] + [s[|s| - 1]];
      pad := pad + [s[|s| - 1]];
    }
  }

  /** Trimming takes off space at both ends, and nothing else. */
  lemma TrimSpaceSplits(s: string) returns (left: string, right: string)
    ensures s == left + TrimSpace(s) + right && AllSpace(left) && AllSpace(right)
  {
    left := TrimLeftSplits(s);
    right := TrimRightSplits(TrimLeft(s));
    Associative(left, TrimSpace(s), right);
  }

  // ---------------------------------------------------------------- splitting

  /** The first position of c in s, or |s| when there is none. */
  function IndexOf(s: string, c: char): (i: nat)
    ensures i <= |s| && forall j | 0 <= j < i :: s[j] != c
    ensures i < |s| ==> s[i] == c
  {
    if s == "" || s[0] == c then 0 else 1 + IndexOf(s[1..], c)
  }

  lemma IndexOfPrefixed(a: string, c: char, rest: string)
    requires c !in a
    ensures IndexOf(a + [c] + rest, c) == |a|
  {
    var s := a + [c] + rest;
    assert s[|a|] == c;
    assert forall j | 0 <= j < |a| :: s[j] == a[j] && a[j] in a;
  }

  /** strings.Split for a one-character separator. */
  function Split(s: string, sep: char): (parts: seq<string>)
    ensures |parts| >= 1
  {
    var i := IndexOf(s, sep);
    if i == |s| then [s] else [s[..i]] + Split(s[i + 1..], sep)
  }

  lemma SplitCons(a: string, sep: char, rest: string)
    requires sep !in a
    ensures Split(a + [sep] + rest, sep) == [a] + Split(rest, sep)
  {
    IndexOfPrefixed(a, sep, rest);
    var s := a + [sep] + rest;
    assert s[..|a|] == a && s[|a| + 1..] == rest;
  }

  lemma SplitSingle(a: string, sep: char)
    requires sep !in a
    ensures Split(a, sep) == [a]
  {
    assert forall j | 0 <= j < |a| :: a[j] in a;
  }

  /** strings.Join for a one-character separator. */
  function Join(parts: seq<string>, sep: char): string
    requires parts != []
  {
    if |parts| == 1 then parts[0] else parts[0] + [sep] + Join(parts[1..], sep)
  }

  lemma {:induction false} SplitJoin(parts: seq<string>, sep: char)
    requires parts != [] && forall i | 0 <= i < |parts| :: sep !in parts[i]
    ensures Split(Join(parts, sep), sep) == parts
  {
    if |parts| == 1 {
      SplitSingle(parts[0], sep);
    } else {
      SplitJoin(parts[1..], sep);
      SplitCons(parts[0], sep, Join(parts[1..], sep));
    }
  }

  /** The last part is the end of the joined text. */
  lemma {:induction false} JoinLast(parts: seq<string>, last: string, sep: char)
    ensures Join(parts + [last], sep) == Join(parts + [""], sep) + last
  {
    if parts != [] {
      assert (parts + [last])[1..] == parts[1..] + [last];
      assert (parts + [""])[1..] == parts[1..] + [""];
      JoinLast(parts[1..], last, sep);
      Associative(parts[0] + [sep], Join(parts[1..] + [""], sep), last);
    } else {
      assert [last] == parts + [last] && [""] == parts + [""];
    }
  }

  /** strings.Cut for a one-character separator: before, after (empty when there is none). */
  function Cut(s: string, sep: char): (string, string) {
    var i := IndexOf(s, sep);
    if i == |s| then (s, "") else (s[..i], s[i + 1..])
  }

  lemma CutAt(a: string, sep: char, rest: string)
    requires sep !in a
    ensures Cut(a + [sep] + rest, sep) == (a, rest)
  {
    IndexOfPrefixed(a, sep, rest);
    var s := a + [sep] + rest;
    assert s[..|a|] == a && s[|a| + 1..] == rest;
  }

  /** The length of the longest space-free prefix. */
  function WordLength(s: string): (n: nat)
    ensures n <= |s| && forall j | 0 <= j < n :: !IsSpace(s[j])
    ensures n < |s| ==> IsSpace(s[n])
  {
    if s == "" || IsSpace(s[0]) then 0 else 1 + WordLength(s[1..])
  }

  /** strings.Fields: the maximal space-free runs, in order. */
  function Fields(s: string): (words: seq<string>)
    ensures forall i | 0 <= i < |words| :: words[i] != "" && SpaceFree(words[i])
  {
    if s == "" then []
    else if IsSpace(s[0]) then Fields(s[1..])
    else
      var n := WordLength(s);
      [s[..n]] + Fields(s[n..])
  }

  lemma {:induction false} FieldsSkipsSpace(pad: string, s: string)
    requires AllSpace(pad)
    ensures Fields(pad + s) == Fields(s)
  {
    if pad == "" {
      assert pad + s == s;
    } else {
      assert (pad + s)[1..] == pad[1..] + s;
      FieldsSkipsSpace(pad[1..], s);
    }
  }

  lemma FieldsCons(word: string, rest: string)
    requires word != "" && SpaceFree(word)
    requires rest != "" ==> IsSpace(rest[0])
    ensures Fields(word + rest) == [word] + Fields(rest)
  {
    var s := word + rest;
    assert forall j | 0 <= j < |word| :: s[j] == word[j];
    assert s[|word|..] == rest;
    assert s[..|word|] == word && s[|word|..] == rest;
  }

  // ---------------------------------------------------------------- letter case

  /** strings.ToLower on ASCII letters; no other letter lowers to a letter of the names compared here. */
  function Lower(c: char): char {
    if 'A' <= c <= 'Z' then (c as int + 32) as char else c
  }

  /** strings.ToUpper on ASCII letters, and the two other letters whose upper case is ASCII. */
  function Upper(c: char): char {
    if 'a' <= c <= 'z' then (c as int - 32) as char
    else if c == '\U{131}' then 'I'
    else if c == '\U{17F}' then 'S'
    else c
  }

  function ToLower(s: string): string {
    seq(|s|, i requires 0 <= i < |s| => Lower(s[i]))
  }

  function ToUpper(s: string): string {
    seq(|s|, i requires 0 <= i < |s| => Upper(s[i]))
  }

  /** s spells a name of small letters and digits, each letter small or capital. */
  predicate Spells(s: string, name: string) {
    |s| == |name| && forall i | 0 <= i < |s| ::
      s[i] == name[i] || ('a' <= name[i] <= 'z' && s[i] as int + 32 == name[i] as int)
  }

  lemma LowerIff(c: char, d: char)
    requires !('A' <= d <= 'Z')
    ensures Lower(c) == d <==> c == d || ('a' <= d <= 'z' && c as int + 32 == d as int)
  {
  }

  /** Comparing in lower case is spelling in any case. */
  lemma ToLowerIff(s: string, name: string)
    requires forall i | 0 <= i < |name| :: !('A' <= name[i] <= 'Z')
    ensures ToLower(s) == name <==> Spells(s, name)
  {
    forall i | 0 <= i < |s| && |s| == |name|
      ensures ToLower(s)[i] == name[i] <==>
        s[i] == name[i] || ('a' <= name[i] <= 'z' && s[i] as int + 32 == name[i] as int)
    {
      LowerIff(s[i], name[i]);
    }
    if |s| == |name| {
      assert ToLower(s) == name <==> forall i | 0 <= i < |s| :: ToLower(s)[i] == name[i];
    }
  }
}
