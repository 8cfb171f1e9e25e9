/** The last partition number, read off parted's machine-readable listing. */
module Parted {
  import opened GoText
  import opened Wrappers

  const MAX_INT: nat := 0x7FFF_FFFF_FFFF_FFFF

  /** fmt.Sscanf(s, "%d"): leading space, a sign, digits that fit an int; the rest is ignored. */
  function ScanInt(s: string): Option<int> {
    ScanTrimmed(TrimLeft(s))
  }

  function ScanTrimmed(t: string): Option<int> {
    var sign := if t != "" && t[0] == '-' then -1 else 1;
    var digits := if t != "" && (t[0] == '-' || t[0] == '+') then t[1..] else t;
    var n := DigitRun(digits);
    if n == 0 then None
    else
      var v := sign * DigitsValue(digits[..n]);
      if 0 - MAX_INT - 1 <= v <= MAX_INT then Some(v) else None
  }

  /** The number in front of a line's first colon. */
  function NumberOf(line: string): Option<int> {
    var colon := IndexOf(line, ':');
    if colon == |line| then None else ScanInt(line[..colon])
  }

  function NumbersOf(lines: seq<string>): (numbers: seq<Option<int>>)
    ensures |numbers| == |lines|
  {
    seq(|lines|, i requires 0 <= i < |lines| => NumberOf(lines[i]))
  }

  /** The largest positive number there is, 0 when there is none. */
  predicate IsMax(n: int, numbers: seq<Option<int>>) {
    && n >= 0 && (n > 0 ==> Some(n) in numbers)
    && (forall k | 0 <= k < |numbers| && numbers[k].Some? :: numbers[k].value <= n)
  }

  lemma OneMoreNumber(n: int, numbers: seq<Option<int>>, number: Option<int>)
    requires IsMax(n, numbers)
    ensures IsMax(if number.Some? && number.value > n then number.value else n, numbers + [number])
  {
  }

  /** The largest positive number of a list, 0 when it has none. */
  function MaxOf(numbers: seq<Option<int>>): int {
    if numbers == [] then 0
    else
      var n, number := MaxOf(numbers[..|numbers| - 1]), numbers[|numbers| - 1];
      if number.Some? && number.value > n then number.value else n
  }

  lemma {:induction false} MaxOfIsMax(numbers: seq<Option<int>>)
    ensures IsMax(MaxOf(numbers), numbers)
  {
    if numbers != [] {
      var init, number := numbers[..|numbers| - 1], numbers[|numbers| - 1];
      MaxOfIsMax(init);
      OneMoreNumber(MaxOf(init), init, number);
      assert numbers == init + [number];
    }
  }

  /** What lastPartitionNumber returns; none is its error. */
  function Last(output: Option<string>): Option<int> {
    match output
    case None => None
    case Some(text) =>
      var n := MaxOf(NumbersOf(Split(text, '\n')));
      if n == 0 then None else Some(n)
  }

  /** An error when parted fails or lists no positive number; else the largest. */
  method LastPartitionNumber(output: Option<string>) returns (last: Option<int>)
    ensures last == Last(output)
    ensures output.None? ==> last.None?
    ensures output.Some? && last.None? ==> IsMax(0, NumbersOf(Split(output.value, '\n')))
    ensures output.Some? && last.Some? ==> last.value > 0 && IsMax(last.value, NumbersOf(Split(output.value, '\n')))
  {
    if output.None? {
      return None;
    }
    var lines := Split(output.value, '\n');
    ghost var numbers := NumbersOf(lines);
    var n := 0;
    for i := 0 to |lines|
      invariant n == MaxOf(numbers[..i])
    {
      assert numbers[..i + 1][..i] == numbers[..i];
      var number := NumberOf(lines[i]);
      if number.Some? && number.value > n {
        n := number.value;
      }
    }
    assert numbers[..|lines|] == numbers;
    MaxOfIsMax(numbers);
    last := if n == 0 then None else Some(n);
  }

  // ---------------------------------------------------------------- parted's own listing

  /** A partition: its number, and the fields after it, which may hold colons of their own. */
  datatype Record = Record(number: nat, fields: string)

  function RecordLine(r: Record): string {
    Itoa(r.number) + ":" + r.fields
  }

  function RecordLines(records: seq<Record>): seq<string> {
    seq(|records|, i requires 0 <= i < |records| => RecordLine(records[i]))
  }

  predicate Listable(r: Record) {
    1 <= r.number <= MAX_INT && '\n' !in r.fields
  }

  predicate IsHeader(line: string) {
    '\n' !in line && NumberOf(line).None?
  }

  /** Every line ends in a newline. */
  function Listing(header: seq<string>, records: seq<Record>): string {
    Join(ListingLines(header, records), '\n')
  }

  lemma RecordNumber(r: Record)
    requires Listable(r)
    ensures NumberOf(RecordLine(r)) == Some(r.number) && '\n' !in RecordLine(r)
  {
    var d := Itoa(r.number);
    assert forall i | 0 <= i < |d| :: IsDigit(d[i]);
    assert ':' !in d && '\n' !in d;
    IndexOfPrefixed(d, ':', r.fields);
    assert RecordLine(r)[..|d|] == d;
    assert d + "" == d;
    DigitRunStops(d, "");
    assert IsDigit(d[0]) && d[..|d|] == d;
    DigitsValueOfItoa(r.number);
  }

  /** The two header lines of parted's machine format. */
  lemma PartedHeader(disk: string, rest: string)
    requires '\n' !in disk && '\n' !in rest && ':' !in disk
    ensures IsHeader("BYT;") && IsHeader("/" + disk + ":" + rest)
  {
    assert "BYT;"[0] != ':' && "BYT;"[1] != ':' && "BYT;"[2] != ':' && "BYT;"[3] != ':';
    IndexOfPrefixed("/" + disk, ':', rest);
    assert ("/" + disk + ":" + rest)[..|"/" + disk|] == "/" + disk;
    assert ("/" + disk)[0] == '/';
  }

  /** The lines of a listing: the header, one line a record, and nothing after the last newline. */
  function ListingLines(header: seq<string>, records: seq<Record>): seq<string> {
    header + RecordLines(records) + [""]
  }

  /** The number each line of a listing shows. */
  function NumberAt(header: seq<string>, records: seq<Record>, i: nat): Option<int> {
    if |header| <= i < |header| + |records| then Some(records[i - |header|].number) else None
  }

  lemma NumberOfLine(header: seq<string>, records: seq<Record>, i: nat)
    requires forall k | 0 <= k < |header| :: IsHeader(header[k])
    requires forall k | 0 <= k < |records| :: Listable(records[k])
    requires i < |ListingLines(header, records)|
    ensures NumberOf(ListingLines(header, records)[i]) == NumberAt(header, records, i)
    ensures '\n' !in ListingLines(header, records)[i]
  {
    var line := ListingLines(header, records)[i];
    if i < |header| {
      assert line == header[i];
    } else if i < |header| + |records| {
      RecordNumber(records[i - |header|]);
      assert line == RecordLine(records[i - |header|]);
    } else {
      assert line == "";
    }
  }

  lemma ListingSplits(header: seq<string>, records: seq<Record>)
    requires forall i | 0 <= i < |header| :: IsHeader(header[i])
    requires forall i | 0 <= i < |records| :: Listable(records[i])
    ensures Split(Listing(header, records), '\n') == ListingLines(header, records)
    ensures var numbers := NumbersOf(ListingLines(header, records));
      |numbers| == |header| + |records| + 1
      && forall i | 0 <= i < |numbers| :: numbers[i] == NumberAt(header, records, i)
  {
    var lines := ListingLines(header, records);
    forall i | 0 <= i < |lines|
      ensures NumberOf(lines[i]) == NumberAt(header, records, i) && '\n' !in lines[i]
    {
      NumberOfLine(header, records, i);
    }
    SplitJoin(lines, '\n');
  }

  /** For any header and any records, in any order, the maximum lastPartitionNumber finds is the
      largest record number, and it is 0, an error, exactly when there are no records. */
  lemma LastOfListing(header: seq<string>, records: seq<Record>, n: int)
    requires forall i | 0 <= i < |header| :: IsHeader(header[i])
    requires forall i | 0 <= i < |records| :: Listable(records[i])
    requires IsMax(n, NumbersOf(Split(Listing(header, records), '\n')))
    ensures n == 0 <==> records == []
    ensures n > 0 ==> exists i :: 0 <= i < |records| && records[i].number == n
    ensures forall i | 0 <= i < |records| :: records[i].number <= n
  {
    ListingSplits(header, records);
    MaxOfRecords(header, records, NumbersOf(ListingLines(header, records)), n);
  }

  lemma MaxOfRecords(header: seq<string>, records: seq<Record>, numbers: seq<Option<int>>, n: int)
    requires |header| + |records| <= |numbers| && IsMax(n, numbers)
    requires forall i | 0 <= i < |numbers| :: numbers[i] == NumberAt(header, records, i)
    requires forall i | 0 <= i < |records| :: Listable(records[i])
    ensures n == 0 <==> records == []
    ensures n > 0 ==> exists i :: 0 <= i < |records| && records[i].number == n
    ensures forall i | 0 <= i < |records| :: records[i].number <= n
  {
    forall i | 0 <= i < |records| ensures 1 <= records[i].number <= n {
      assert numbers[|header| + i] == Some(records[i].number);
    }
    assert records != [] ==> 1 <= records[0].number <= n;
    if n > 0 {
      var i :| 0 <= i < |numbers| && numbers[i] == Some(n);
      assert records[i - |header|].number == n;
    }
  }

  lemma DigitsThenRest(n: nat, rest: string)
    requires rest != "" ==> !IsDigit(rest[0])
    ensures var t := Itoa(n) + rest;
      t != "" && IsDigit(t[0]) && DigitRun(t) == |Itoa(n)| && t[..DigitRun(t)] == Itoa(n)
      && DigitsValue(t[..DigitRun(t)]) == n
  {
    DigitRunStops(Itoa(n), rest);
    DigitsValueOfItoa(n);
    assert (Itoa(n) + rest)[..|Itoa(n)|] == Itoa(n);
  }

  /** What Sscanf takes for the number in front of a colon: after blanks the digits, whatever follows them,
      if they fit. */
  lemma ScannedNumber(pad: string, n: nat, rest: string)
    requires AllSpace(pad) && (rest != "" ==> !IsDigit(rest[0]))
    ensures ScanInt(pad + (Itoa(n) + rest)) == if n < 0x8000_0000_0000_0000 then Some(n) else None
  {
    DigitsThenRest(n, rest);
    TrimLeftSkips(pad, Itoa(n) + rest);
  }

  /** And a sign in front of them. */
  lemma ScannedSign(pad: string, sign: char, n: nat, rest: string)
    requires AllSpace(pad) && (rest != "" ==> !IsDigit(rest[0])) && (sign == '+' || sign == '-')
    ensures ScanInt(pad + ([sign] + (Itoa(n) + rest))) ==
      if sign == '+' then (if n < 0x8000_0000_0000_0000 then Some(n) else None)
      else (if n <= 0x8000_0000_0000_0000 then Some(-(n as int)) else None)
  {
    SignThenDigits(sign, n, rest);
    TrimLeftSkips(pad, [sign] + (Itoa(n) + rest));
  }

  lemma SignThenDigits(sign: char, n: nat, rest: string)
    requires (rest != "" ==> !IsDigit(rest[0])) && (sign == '+' || sign == '-')
    ensures ScanTrimmed([sign] + (Itoa(n) + rest)) ==
      if sign == '+' then (if n < 0x8000_0000_0000_0000 then Some(n) else None)
      else (if n <= 0x8000_0000_0000_0000 then Some(-(n as int)) else None)
  {
    var t := Itoa(n) + rest;
    DigitsThenRest(n, rest);
    assert ([sign] + t)[1..] == t;
  }

  /** A line without a colon shows no number, and what follows the first colon is not looked at. */
  lemma BehindColon(a: string, rest: string)
    requires ':' !in a
    ensures NumberOf(a) == None && NumberOf(a + [':'] + rest) == ScanInt(a)
  {
    IndexOfPrefixed(a, ':', rest);
    assert (a + [':'] + rest)[..|a|] == a;
    assert forall i | 0 <= i < |a| :: a[i] in a;
  }
}
