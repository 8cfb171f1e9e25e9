/** encoding/json for structs of strings: Marshal's text, and Unmarshal on every byte string (RFC 8259). */
module Json {
  import opened Wrappers
  import GoText
  import Utf8

  datatype Value =
    | Null
    | Bool(flag: bool)
    | Number(digits: string)
    | Text(text: string)
    | Array(items: seq<Value>)
    | Object(members: seq<Member>)

  datatype Member = Member(key: string, value: Value)

  const MAX_DEPTH: nat := 10000

  // ---------------------------------------------------------------- printing

  function HexDigit(d: nat): char
    requires d < 16
  {
    if d < 10 then ('0' as int + d) as char else ('a' as int + d - 10) as char
  }

  function EscapeChar(c: char): (e: string)
    ensures e != "" && e[0] >= ' ' && e[0] != '"'
  {
    if c == '"' || c == '\\' then ['\\', c]
    else if c == '\U{8}' then "\\b"
    else if c == '\U{C}' then "\\f"
    else if c == '\n' then "\\n"
    else if c == '\r' then "\\r"
    else if c == '\t' then "\\t"
    else if c < ' ' || c == '<' || c == '>' || c == '&' then
      "\\u00" + [HexDigit(c as int / 16), HexDigit(c as int % 16)]
    else if c == '\U{2028}' then "\\u2028"
    else if c == '\U{2029}' then "\\u2029"
    else [c]
  }

  function Escape(s: string): string {
    if s == "" then "" else EscapeChar(s[0]) + Escape(s[1..])
  }

  /** A string literal, followed by rest. */
  function PrintText(s: string, rest: string): string {
    "\"" + (Escape(s) + ("\"" + rest))
  }

  /** The members of a struct of strings, in field order, then the closing brace and rest. */
  function PrintMembers(fields: seq<(string, string)>, rest: string): string
    requires fields != []
  {
    var after := if |fields| == 1 then "}" + rest else "," + PrintMembers(fields[1..], rest);
    PrintText(fields[0].0, ":" + PrintText(fields[0].1, after))
  }

  function PrintStruct(fields: seq<(string, string)>): string
    requires fields != []
  {
    "{" + PrintMembers(fields, "")
  }

  /** The field as Marshal keeps it: one tagged omitempty goes when its value is empty. */
  function OmitEmpty(name: string, value: string): seq<(string, string)> {
    if value == "" then [] else [(name, value)]
  }

  // ---------------------------------------------------------------- parsing

  function SkipSpace(s: string): (r: string)
    ensures |r| <= |s|
    ensures s != "" && s[0] !in " \t\r\n" ==> r == s
  {
    if s != "" && s[0] in " \t\r\n" then SkipSpace(s[1..]) else s
  }

  function HexValue(c: char): Option<nat> {
    if '0' <= c <= '9' then Some(c as int - '0' as int)
    else if 'a' <= c <= 'f' then Some(c as int - 'a' as int + 10)
    else if 'A' <= c <= 'F' then Some(c as int - 'A' as int + 10)
    else None
  }

  function Hex4(s: string): (v: Option<nat>)
    ensures v.Some? ==> |s| >= 4 && v.value < 0x1_0000
  {
    if |s| < 4 then None
    else
      match (HexValue(s[0]), HexValue(s[1]), HexValue(s[2]), HexValue(s[3]))
      case (Some(a), Some(b), Some(c), Some(d)) =>
        if a < 16 && b < 16 && c < 16 && d < 16 then Some(((a * 16 + b) * 16 + c) * 16 + d) else None
      case _ => None
  }

  /** The second half of a surrogate pair, written as another escape. */
  function LowSurrogate(s: string): (v: Option<nat>)
    ensures v.Some? ==> |s| >= 6 && 0xDC00 <= v.value < 0xE000
  {
    if |s| >= 6 && s[0] == '\\' && s[1] == 'u' then
      match Hex4(s[2..])
      case Some(m) => if 0xDC00 <= m < 0xE000 then Some(m) else None
      case None => None
    else None
  }

  /** What follows a backslash. */
  function ParseEscape(s: string): (r: Option<(char, string)>)
    ensures r.Some? ==> |r.value.1| < |s|
  {
    if s == "" then None
    else if s[0] in "\"\\/" then Some((s[0], s[1..]))
    else if s[0] == 'b' then Some(('\U{8}', s[1..]))
    else if s[0] == 'f' then Some(('\U{C}', s[1..]))
    else if s[0] == 'n' then Some(('\n', s[1..]))
    else if s[0] == 'r' then Some(('\r', s[1..]))
    else if s[0] == 't' then Some(('\t', s[1..]))
    else if s[0] == 'u' && Hex4(s[1..]).Some? then
      var n := Hex4(s[1..]).value;
      if !(0xD800 <= n < 0xE000) then Some((n as char, s[5..]))
      else if n < 0xDC00 && LowSurrogate(s[5..]).Some? then
        Some(((0x1_0000 + (n - 0xD800) * 0x400 + (LowSurrogate(s[5..]).value - 0xDC00)) as char, s[11..]))
      else Some((Utf8.REPLACEMENT, s[5..]))
    else None
  }

  /** The rest of a string literal, after its opening quote. */
  function ParseText(s: string): (r: Option<(string, string)>)
    ensures r.Some? ==> |r.value.1| < |s|
    decreases |s|
  {
    if s == "" || s[0] < ' ' then None
    else if s[0] == '"' then Some(("", s[1..]))
    else if s[0] == '\\' then
      match ParseEscape(s[1..])
      case None => None
      case Some((c, rest)) => Prefixed(c, ParseText(rest))
    else Prefixed(s[0], ParseText(s[1..]))
  }

  function Prefixed(c: char, r: Option<(string, string)>): Option<(string, string)> {
    match r
    case None => None
    case Some((text, rest)) => Some(([c] + text, rest))
  }

  /** How many characters of s its leading number takes; none when there is no well-formed number. */
  function NumberLength(s: string): (n: Option<nat>)
    ensures n.Some? ==> 1 <= n.value <= |s|
  {
    var sign := if s != "" && s[0] == '-' then 1 else 0;
    var run := GoText.DigitRun(s[sign..]);
    if run == 0 then None
    else
      var whole := sign + if s[sign] == '0' then 1 else run;
      var frac := if whole < |s| && s[whole] == '.' then 1 + GoText.DigitRun(s[whole + 1..]) else 0;
      if frac == 1 then None
      else
        var e := whole + frac;
        if e < |s| && (s[e] == 'e' || s[e] == 'E') then
          var signed := if e + 1 < |s| && (s[e + 1] == '+' || s[e + 1] == '-') then 2 else 1;
          var exponent := GoText.DigitRun(s[e + signed..]);
          if exponent == 0 then None else Some(e + signed + exponent)
        else Some(e)
  }

  function Literal(s: string, word: string, v: Value): Option<(Value, string)> {
    if word <= s then Some((v, s[|word|..])) else None
  }

  /** One value and what follows it, with so many levels of nesting left. */
  function ParseValue(s: string, depth: nat): (r: Option<(Value, string)>)
    ensures r.Some? ==> |r.value.1| < |s|
    decreases |s|, 1
  {
    var t := SkipSpace(s);
    if t == "" then None
    else if t[0] == '{' then
      if depth == 0 then None
      else if SkipSpace(t[1..]) != "" && SkipSpace(t[1..])[0] == '}' then Some((Object([]), SkipSpace(t[1..])[1..]))
      else
        match ParseMembers(t[1..], depth - 1)
        case Some((members, rest)) => Some((Object(members), rest))
        case None => None
    else if t[0] == '[' then
      if depth == 0 then None
      else if SkipSpace(t[1..]) != "" && SkipSpace(t[1..])[0] == ']' then Some((Array([]), SkipSpace(t[1..])[1..]))
      else
        match ParseItems(t[1..], depth - 1)
        case Some((items, rest)) => Some((Array(items), rest))
        case None => None
    else if t[0] == '"' then
      match ParseText(t[1..])
      case Some((text, rest)) => Some((Text(text), rest))
      case None => None
    else if t[0] == 't' then Literal(t, "true", Bool(true))
    else if t[0] == 'f' then Literal(t, "false", Bool(false))
    else if t[0] == 'n' then Literal(t, "null", Null)
    else
      match NumberLength(t)
      case Some(n) => Some((Number(t[..n]), t[n..]))
      case None => None
  }

  /** One member of an object. */
  function ParseMember(s: string, depth: nat): (r: Option<(Member, string)>)
    ensures r.Some? ==> |r.value.1| < |s|
    decreases |s|, 0
  {
    var t := SkipSpace(s);
    if t == "" || t[0] != '"' || ParseText(t[1..]).None? then None
    else
      var (key, afterKey) := ParseText(t[1..]).value;
      var colon := SkipSpace(afterKey);
      if colon == "" || colon[0] != ':' then None
      else
        match ParseValue(colon[1..], depth)
        case Some((value, rest)) => Some((Member(key, value), rest))
        case None => None
  }

  /** The members of an object, up to and including its closing brace. */
  function ParseMembers(s: string, depth: nat): (r: Option<(seq<Member>, string)>)
    ensures r.Some? ==> |r.value.1| < |s|
    decreases |s|, 2
  {
    match ParseMember(s, depth)
    case None => None
    case Some((member, afterMember)) =>
      var next := SkipSpace(afterMember);
      if next == "" then None
      else if next[0] == '}' then Some(([member], next[1..]))
      else if next[0] != ',' then None
      else
        match ParseMembers(next[1..], depth)
        case Some((members, rest)) => Some(([member] + members, rest))
        case None => None
  }

  function ParseItems(s: string, depth: nat): (r: Option<(seq<Value>, string)>)
    ensures r.Some? ==> |r.value.1| < |s|
    decreases |s|, 2
  {
    match ParseValue(s, depth)
    case None => None
    case Some((value, afterValue)) =>
      var next := SkipSpace(afterValue);
      if next == "" then None
      else if next[0] == ']' then Some(([value], next[1..]))
      else if next[0] != ',' then None
      else
        match ParseItems(next[1..], depth)
        case Some((items, rest)) => Some(([value] + items, rest))
        case None => None
  }

  /** The one value a byte string holds; none when it is not JSON. */
  function Parse(raw: seq<Byte>): Option<Value> {
    match ParseValue(Utf8.Decode(raw), MAX_DEPTH)
    case Some((v, rest)) => if SkipSpace(rest) == "" then Some(v) else None
    case None => None
  }

  // ---------------------------------------------------------------- struct fields

  /** Member names match fields without regard to case, and two non-ASCII letters fold to ASCII ones. */
  function FoldName(key: string): string {
    seq(|key|, i requires 0 <= i < |key| =>
      var c := key[i];
      if 'A' <= c <= 'Z' then (c as int + 32) as char
      else if c == '\U{212A}' then 'k'
      else if c == '\U{17F}' then 's'
      else c)
  }

  /** A string field after Unmarshal: the last member of its name that holds a string, or empty. */
  function StringField(members: seq<Member>, name: string): string {
    if members == [] then ""
    else
      var last := members[|members| - 1];
      if FoldName(last.key) == FoldName(name) && last.value.Text? then last.value.text
      else StringField(members[..|members| - 1], name)
  }

  /** Whether Unmarshal reports a type error: a member of a field's name is neither a string nor null. */
  predicate Mistyped(members: seq<Member>, names: seq<string>) {
    exists i, j :: 0 <= i < |members| && 0 <= j < |names|
      && FoldName(members[i].key) == FoldName(names[j]) && !members[i].value.Text? && !members[i].value.Null?
  }

  // ---------------------------------------------------------------- round trip

  lemma HexDigitParses(d: nat)
    requires d < 16
    ensures HexValue(HexDigit(d)) == Some(d)
  {
  }

  lemma PlainParses(c: char, rest: string)
    requires c >= ' ' && c != '"' && c != '\\'
    ensures ParseText([c] + rest) == Prefixed(c, ParseText(rest))
  {
    assert ([c] + rest)[1..] == rest;
  }

  lemma EscapeParses(e: string, c: char, rest: string)
    requires e != "" && e[0] == '\\' && ParseEscape(e[1..] + rest) == Some((c, rest))
    ensures ParseText(e + rest) == Prefixed(c, ParseText(rest))
  {
    assert (e + rest)[1..] == e[1..] + rest;
    BackslashParses(e + rest, c, rest);
  }

  lemma BackslashParses(s: string, c: char, rest: string)
    requires s != "" && s[0] == '\\' && ParseEscape(s[1..]) == Some((c, rest))
    ensures ParseText(s) == Prefixed(c, ParseText(rest))
  {
  }

  lemma ShortEscape(letter: char, c: char, rest: string)
    requires EscapeChar(c) == ['\\', letter]
    ensures ParseEscape([letter] + rest) == Some((c, rest))
  {
    assert ([letter] + rest)[1..] == rest;
  }

  /** A u and four hexadecimal digits. */
  lemma CodeEscape(e: string, n: nat, rest: string)
    requires |e| == 5 && e[0] == 'u' && Hex4(e[1..]) == Some(n)
    requires !(0xD800 <= n < 0xE000)
    ensures ParseEscape(e + rest) == Some((n as char, rest))
  {
    var s := e + rest;
    assert s[5..] == rest && s[1..] == e[1..] + rest;
    assert forall i | 0 <= i < 4 :: s[1..][i] == e[1..][i];
    assert Hex4(s[1..]) == Some(n);
  }

  lemma EscapedCharParses(c: char, rest: string)
    ensures ParseText(EscapeChar(c) + rest) == Prefixed(c, ParseText(rest))
  {
    var e := EscapeChar(c);
    if e == [c] {
      PlainParses(c, rest);
    } else if |e| == 2 {
      ShortEscape(e[1], c, rest);
      assert e[1..] == [e[1]];
      EscapeParses(e, c, rest);
    } else {
      HexDigitParses(c as int % 16);
      if c as int < 0x100 {
        HexDigitParses(c as int / 16);
      }
      CodeEscape(e[1..], c as int, rest);
      EscapeParses(e, c, rest);
    }
  }

  lemma {:induction false} EscapedTextParses(s: string, rest: string)
    ensures ParseText(Escape(s) + ("\"" + rest)) == Some((s, rest))
  {
    if s == "" {
      assert Escape(s) + ("\"" + rest) == "\"" + rest;
    } else {
      EscapedTextParses(s[1..], rest);
      var tail := Escape(s[1..]) + ("\"" + rest);
      Associative(EscapeChar(s[0]), Escape(s[1..]), "\"" + rest);
      EscapedCharParses(s[0], tail);
      assert [s[0]] + s[1..] == s;
    }
  }

  function MembersOf(fields: seq<(string, string)>): seq<Member> {
    seq(|fields|, i requires 0 <= i < |fields| => Member(fields[i].0, Text(fields[i].1)))
  }

  lemma PrintedTextParses(s: string, rest: string, depth: nat)
    ensures ParseValue(PrintText(s, rest), depth) == Some((Text(s), rest))
  {
    assert PrintText(s, rest)[1..] == Escape(s) + ("\"" + rest);
    EscapedTextParses(s, rest);
  }

  lemma MemberSteps(t: string, key: string, afterKey: string, value: Value, rest: string, depth: nat)
    requires ParseText(t) == Some((key, ":" + afterKey))
    requires ParseValue(afterKey, depth) == Some((value, rest))
    ensures ParseMember("\"" + t, depth) == Some((Member(key, value), rest))
  {
    assert ("\"" + t)[1..] == t;
    assert (":" + afterKey)[1..] == afterKey;
  }

  lemma PrintedMemberParses(key: string, value: string, rest: string, depth: nat)
    ensures ParseMember(PrintText(key, ":" + PrintText(value, rest)), depth) == Some((Member(key, Text(value)), rest))
  {
    EscapedTextParses(key, ":" + PrintText(value, rest));
    PrintedTextParses(value, rest, depth);
    var afterKey := PrintText(value, rest);
    MemberSteps(Escape(key) + ("\"" + (":" + afterKey)), key, afterKey, Text(value), rest, depth);
  }

  lemma LastMember(s: string, m: Member, rest: string, depth: nat)
    requires ParseMember(s, depth) == Some((m, "}" + rest))
    ensures ParseMembers(s, depth) == Some(([m], rest))
  {
    assert ("}" + rest)[1..] == rest;
  }

  lemma OneMoreMember(s: string, m: Member, after: string, members: seq<Member>, rest: string, depth: nat)
    requires ParseMember(s, depth) == Some((m, "," + after))
    requires ParseMembers(after, depth) == Some((members, rest))
    ensures ParseMembers(s, depth) == Some(([m] + members, rest))
  {
    assert ("," + after)[1..] == after;
  }

  lemma {:induction false} PrintedMembersParse(fields: seq<(string, string)>, rest: string, depth: nat)
    requires fields != []
    ensures ParseMembers(PrintMembers(fields, rest), depth) == Some((MembersOf(fields), rest))
    decreases |fields|
  {
    var (key, value) := fields[0];
    var m := Member(key, Text(value));
    assert MembersOf(fields) == [m] + MembersOf(fields[1..]);
    if |fields| == 1 {
      PrintedMemberParses(key, value, "}" + rest, depth);
      LastMember(PrintMembers(fields, rest), m, rest, depth);
      assert MembersOf(fields) == [m];
    } else {
      var after := PrintMembers(fields[1..], rest);
      PrintedMemberParses(key, value, "," + after, depth);
      PrintedMembersParse(fields[1..], rest, depth);
      OneMoreMember(PrintMembers(fields, rest), m, after, MembersOf(fields[1..]), rest, depth);
    }
  }

  lemma PrintedObjectParses(fields: seq<(string, string)>, rest: string, depth: nat)
    requires fields != [] && depth > 0
    ensures ParseValue("{" + PrintMembers(fields, rest), depth) == Some((Object(MembersOf(fields)), rest))
  {
    var s, members := "{" + PrintMembers(fields, rest), PrintMembers(fields, rest);
    assert s[1..] == members && members[0] == '"';
    PrintedMembersParse(fields, rest, depth - 1);
  }

  /** Unmarshal reads back every member Marshal wrote. */
  lemma PrintedStructParses(fields: seq<(string, string)>)
    requires fields != []
    ensures Parse(Utf8.Encode(PrintStruct(fields))) == Some(Object(MembersOf(fields)))
  {
    Utf8.DecodeEncode(PrintStruct(fields));
    PrintedObjectParses(fields, "", MAX_DEPTH);
  }

  lemma StringFieldAppend(members: seq<Member>, key: string, text: string, name: string)
    ensures StringField(members + [Member(key, Text(text))], name)
      == if FoldName(key) == FoldName(name) then text else StringField(members, name)
  {
    var more := members + [Member(key, Text(text))];
    assert more[..|more| - 1] == members;
  }

  lemma OptionalField(fields: seq<(string, string)>, key: string, text: string, name: string)
    requires FoldName(key) == FoldName(name) ==> StringField(MembersOf(fields), name) == ""
    ensures StringField(MembersOf(fields + OmitEmpty(key, text)), name)
      == if FoldName(key) == FoldName(name) then text else StringField(MembersOf(fields), name)
  {
    if text == "" {
      assert fields + OmitEmpty(key, text) == fields;
    } else {
      assert MembersOf(fields + [(key, text)]) == MembersOf(fields) + [Member(key, Text(text))];
      StringFieldAppend(MembersOf(fields), key, text, name);
    }
  }

  // ---------------------------------------------------------------- lengths

  lemma {:induction false} ParseTextLength(s: string)
    requires ParseText(s).Some?
    ensures var (text, rest) := ParseText(s).value; |text| + |rest| < |s|
    decreases |s|
  {
    if s[0] == '\\' {
      ParseTextLength(ParseEscape(s[1..]).value.1);
    } else if s[0] != '"' {
      ParseTextLength(s[1..]);
    }
  }

  lemma ParseMemberLength(s: string, depth: nat)
    requires ParseMember(s, depth).Some?
    ensures var value := ParseMember(s, depth).value.0.value; value.Text? ==> |value.text| < |s|
  {
    var key := SkipSpace(s);
    var colon := SkipSpace(ParseText(key[1..]).value.1);
    var t := SkipSpace(colon[1..]);
    if t[0] == '"' {
      ParseTextLength(t[1..]);
    }
  }

  lemma {:induction false} ParseMembersLength(s: string, depth: nat, i: nat)
    requires ParseMembers(s, depth).Some? && i < |ParseMembers(s, depth).value.0|
    ensures var value := ParseMembers(s, depth).value.0[i].value; value.Text? ==> |value.text| < |s|
    decreases i
  {
    ParseMemberLength(s, depth);
    if i > 0 {
      var next := SkipSpace(ParseMember(s, depth).value.1);
      ParseMembersLength(next[1..], depth, i - 1);
    }
  }

  lemma {:induction false} StringFieldBound(members: seq<Member>, name: string, n: nat)
    requires n > 0 && forall i | 0 <= i < |members| && members[i].value.Text? :: |members[i].value.text| < n
    ensures |StringField(members, name)| < n
  {
    if members != [] {
      StringFieldBound(members[..|members| - 1], name, n);
    }
  }

  /** A string field is shorter than the JSON it was read from. */
  lemma FieldIsShorter(raw: seq<Byte>, name: string)
    requires Parse(raw).Some? && Parse(raw).value.Object?
    ensures |StringField(Parse(raw).value.members, name)| < |raw|
  {
    var s := Utf8.Decode(raw);
    Utf8.DecodeLength(raw);
    var t := SkipSpace(s);
    var members := Parse(raw).value.members;
    if members != [] {
      forall i | 0 <= i < |members| && members[i].value.Text? ensures |members[i].value.text| < |raw| {
        ParseMembersLength(t[1..], MAX_DEPTH - 1, i);
      }
    }
    StringFieldBound(members, name, |raw|);
  }

  // ---------------------------------------------------------------- the text itself

  /** Characters Marshal writes as they are. */
  predicate IsPlain(s: string) {
    forall i | 0 <= i < |s| :: s[i] >= ' ' && s[i] !in "\"\\<>&\U{2028}\U{2029}"
  }

  lemma {:induction false} PlainIsKept(s: string)
    requires IsPlain(s)
    ensures Escape(s) == s
  {
    if s != "" {
      PlainIsKept(s[1..]);
      assert s == [s[0]] + s[1..] && EscapeChar(s[0]) == [s[0]];
    }
  }

  function Quoted(s: string): string {
    "\"" + s + "\""
  }

  lemma PlainIsQuoted(s: string, rest: string)
    requires IsPlain(s)
    ensures PrintText(s, rest) == Quoted(s) + rest
  {
    PlainIsKept(s);
    Associative("\"", s, "\"");
    Associative("\"", s + "\"", rest);
    Associative(s, "\"", rest);
  }

  /** A member of plain strings, and what follows it. */
  lemma PrintedMember(fields: seq<(string, string)>)
    requires fields != [] && IsPlain(fields[0].0) && IsPlain(fields[0].1)
    ensures PrintMembers(fields, "") == Quoted(fields[0].0) + (":" + (Quoted(fields[0].1) +
      if |fields| == 1 then "}" else "," + PrintMembers(fields[1..], "")))
  {
    var after := if |fields| == 1 then "}" + "" else "," + PrintMembers(fields[1..], "");
    assert "}" + "" == "}";
    PlainIsQuoted(fields[0].1, after);
    PlainIsQuoted(fields[0].0, ":" + PrintText(fields[0].1, after));
  }

  function PrintedPair(name: string, value: string, more: string): string {
    "{" + (Quoted(name) + (":" + (Quoted(value) + more)))
  }

  /** A struct of two plain strings, the second of which is left out when it is empty. */
  lemma PrintedStruct(n1: string, v1: string, n2: string, v2: string)
    requires IsPlain(n1) && IsPlain(v1) && IsPlain(n2) && IsPlain(v2)
    ensures PrintStruct([(n1, v1)] + OmitEmpty(n2, v2))
      == PrintedPair(n1, v1, if v2 == "" then "}" else "," + (Quoted(n2) + (":" + (Quoted(v2) + "}"))))
  {
    var fields := [(n1, v1)] + OmitEmpty(n2, v2);
    assert fields[0] == (n1, v1) && fields[1..] == OmitEmpty(n2, v2);
    PrintedMember(fields);
    if v2 != "" {
      PrintedMember(fields[1..]);
    }
  }

  /** Escapes in each of their forms. */
  lemma EscapedText()
    ensures EscapeChar('"') == "\\\"" && EscapeChar('\\') == "\\\\" && EscapeChar('\n') == "\\n"
    ensures EscapeChar('<') == "\\u003c" && EscapeChar('\U{1F}') == "\\u001f" && EscapeChar('\U{2028}') == "\\u2028"
  {
  }

  // ---------------------------------------------------------------- what is JSON

  /** Only white space may follow the object; anything else makes the whole no JSON. */
  lemma NothingMayFollow(fields: seq<(string, string)>, rest: string)
    requires fields != []
    ensures Parse(Utf8.Encode("{" + PrintMembers(fields, rest)))
      == if SkipSpace(rest) == "" then Some(Object(MembersOf(fields))) else None
  {
    Utf8.DecodeEncode("{" + PrintMembers(fields, rest));
    PrintedObjectParses(fields, rest, MAX_DEPTH);
  }

  /** Arrays in arrays. */
  function Nested(n: nat, rest: string): string {
    if n == 0 then rest else "[" + Nested(n - 1, "]" + rest)
  }

  lemma NestedFirst(n: nat, rest: string)
    ensures n > 0 ==> Nested(n, rest)[0] == '['
  {
  }

  lemma NestedStep(n: nat, rest: string)
    requires n > 0
    ensures Nested(n, rest)[1..] == Nested(n - 1, "]" + rest)
  {
  }

  /** So many levels deep is JSON exactly when the limit allows it. */
  lemma {:induction false} NestingLimit(n: nat, rest: string, depth: nat)
    requires n > 0
    ensures ParseValue(Nested(n, rest), depth).Some? <==> n <= depth
    ensures n <= depth ==> ParseValue(Nested(n, rest), depth).value.1 == rest
    decreases n
  {
    var t := Nested(n, rest);
    NestedFirst(n, rest);
    NestedStep(n, rest);
    if depth > 0 && n == 1 {
      assert t[1..] == "]" + rest && t[1..][1..] == rest;
    } else if depth > 0 {
      NestedFirst(n - 1, "]" + rest);
      NestingLimit(n - 1, "]" + rest, depth - 1);
      assert ("]" + rest)[1..] == rest;
    }
  }

  lemma DeepestArray(n: nat)
    requires n > 0
    ensures Parse(Utf8.Encode(Nested(n, ""))).Some? <==> n <= 10000
  {
    Utf8.DecodeEncode(Nested(n, ""));
    NestingLimit(n, "", MAX_DEPTH);
  }

  /** The short escapes, whatever follows. */
  lemma ShortEscapesParse(rest: string)
    ensures ParseEscape("\"" + rest) == Some(('"', rest)) && ParseEscape("\\" + rest) == Some(('\\', rest))
    ensures ParseEscape("/" + rest) == Some(('/', rest)) && ParseEscape("n" + rest) == Some(('\n', rest))
    ensures ParseEscape("b" + rest) == Some(('\U{8}', rest)) && ParseEscape("f" + rest) == Some(('\U{C}', rest))
    ensures ParseEscape("r" + rest) == Some(('\r', rest)) && ParseEscape("t" + rest) == Some(('\t', rest))
    ensures ParseEscape("x" + rest) == None && ParseEscape("") == None
  {
    assert ("\"" + rest)[1..] == rest && ("\\" + rest)[1..] == rest && ("/" + rest)[1..] == rest;
    assert ("b" + rest)[1..] == rest && ("f" + rest)[1..] == rest && ("n" + rest)[1..] == rest;
    assert ("r" + rest)[1..] == rest && ("t" + rest)[1..] == rest;
  }

  /** A pair of surrogates is one character; half a pair is none. */
  lemma SurrogatesParse()
    ensures ParseEscape("uD834\\uDD1E") == Some(('\U{1D11E}', ""))
    ensures ParseEscape("uD834") == Some((Utf8.REPLACEMENT, ""))
  {
    var s := "uD834\\uDD1E";
    assert s[1..] == "D834\\uDD1E" && s[5..] == "\\uDD1E" && s[5..][2..] == "DD1E" && s[11..] == "";
    assert Hex4("D834\\uDD1E") == Some(0xD834) && Hex4("DD1E") == Some(0xDD1E);
    assert "uD834"[1..] == "D834" && "uD834"[5..] == "";
  }

  lemma LiteralsParse(rest: string, depth: nat)
    ensures ParseValue("true" + rest, depth) == Some((Bool(true), rest))
    ensures ParseValue("false" + rest, depth) == Some((Bool(false), rest))
    ensures ParseValue("null" + rest, depth) == Some((Null, rest))
  {
    assert ("true" + rest)[4..] == rest && ("false" + rest)[5..] == rest && ("null" + rest)[4..] == rest;
  }

  /** How far a number reaches, and what is none. */
  lemma NumbersReach()
    ensures NumberLength("-0.5") == Some(4) && NumberLength("10e3") == Some(4) && NumberLength("012") == Some(1)
    ensures NumberLength("1.") == None && NumberLength("-") == None && NumberLength("1e") == None
  {
    assert "-0.5"[1..] == "0.5" && "-0.5"[3..] == "5" && "1."[2..] == "" && "-"[1..] == "" && "1e"[2..] == "";
    assert "10e3"[0..] == "10e3" && "10e3"[3..] == "3";
    assert "012"[0..] == "012" && "1."[0..] == "1." && "1e"[0..] == "1e";
  }

  /** A member is matched to a field whatever the case of its letters. */
  lemma NamesMatch(key: string, name: string)
    requires forall i | 0 <= i < |name| :: 'a' <= name[i] <= 'z' && name[i] != 'k' && name[i] != 's'
    ensures FoldName(key) == FoldName(name) <==> GoText.Spells(key, name)
  {
    assert |FoldName(key)| == |key| && |FoldName(name)| == |name|;
    if |key| == |name| {
      forall i | 0 <= i < |key|
        ensures FoldName(key)[i] == FoldName(name)[i] <==>
          key[i] == name[i] || ('a' <= name[i] <= 'z' && key[i] as int + 32 == name[i] as int)
      {
      }
      assert FoldName(key) == FoldName(name) <==> forall i | 0 <= i < |key| :: FoldName(key)[i] == FoldName(name)[i];
    }
  }
}
