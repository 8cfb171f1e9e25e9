/** The disk listing of lsblk, and the disk that imaging uses. */
module Lsblk {
  import opened Decimal
  import opened GoText
  import opened Wrappers

  datatype Disk = Disk(path: string, bytes: int)

  const MAX_INT64: int := 0x7FFF_FFFF_FFFF_FFFF
  const MIN_INT64: int := -0x8000_0000_0000_0000

  // ---------------------------------------------------------------- sizes

  function Unit(suffix: char): Option<nat> {
    match suffix
    case 'K' => Some(0x400)
    case 'M' => Some(0x10_0000)
    case 'G' => Some(0x4000_0000)
    case 'T' => Some(0x100_0000_0000)
    case 'P' => Some(0x4_0000_0000_0000)
    case _ => None
  }

  function Power(base: nat, n: nat): nat {
    if n == 0 then 1 else base * Power(base, n - 1)
  }

  /** K, M, G, T and P are 1024 to the first up to the fifth, and there is no other unit. */
  lemma UnitsArePowers(i: nat)
    requires i < 5
    ensures Unit("KMGTP"[i]) == Some(Power(1024, i + 1))
    ensures forall c: char :: Unit(c).Some? <==> c in "KMGTP"
  {
    assert Power(1024, 1) == 0x400;
    assert Power(1024, 2) == 0x10_0000;
    assert Power(1024, 3) == 0x4000_0000;
    assert Power(1024, 4) == 0x100_0000_0000;
    assert Power(1024, 5) == 0x4_0000_0000_0000;
  }

  /** The value strconv.ParseInt returns: 0 when malformed, the nearest limit when out of range. */
  function ParseInt64(s: string): int {
    var (sign, digits) := CutSign(s);
    if digits == "" || !AllDigits(digits) then 0
    else
      var n := sign * DigitsValue(digits);
      if n > MAX_INT64 then MAX_INT64 else if n < MIN_INT64 then MIN_INT64 else n
  }

  /** The size parseSize returns, whose error List ignores. */
  function ParseSize(text: string): int {
    ParseTrimmed(TrimSpace(text))
  }

  function ParseTrimmed(s: string): int {
    if s == "" || s == "-" then 0
    else
      match Unit(s[|s| - 1])
      case Some(unit) =>
        (match ParseFloat(s[..|s| - 1])
         case Some(v) => Truncate(v, unit)
         case None => 0)
      case None => ParseInt64(s)
  }

  /** A size as lsblk prints it: decimal digits, perhaps a point and more of them, and a unit. */
  function SizeText(whole: string, frac: string, suffix: char): string {
    whole + (if frac == "" then "" else "." + frac) + [suffix]
  }

  lemma OwnEndsKept(s: string)
    requires s != "" && !IsSpace(s[0]) && !IsSpace(s[|s| - 1])
    ensures TrimSpace(s) == s
  {
    TrimSpaceOfPadded("", s, "");
    assert "" + s + "" == s;
  }

  lemma TrimmedIsFloor(whole: string, frac: string, suffix: char)
    requires AllDigits(whole) && AllDigits(frac) && whole != "" && Unit(suffix).Some?
    ensures ParseTrimmed(SizeText(whole, frac, suffix))
      == DigitsValue(whole + frac) * Unit(suffix).value / Pow10(|frac|)
  {
    var s := SizeText(whole, frac, suffix);
    if frac == "" {
      assert s[..|s| - 1] == whole && whole + frac == whole;
      ParseFloatWhole(whole);
    } else {
      assert s[..|s| - 1] == whole + "." + frac;
      ParseFloatPlain(whole, frac);
    }
    TruncateFraction(DigitsValue(whole + frac), |frac|, Unit(suffix).value);
  }

  /** parseSize is the floor of the decimal times the unit. */
  lemma SizeIsFloor(whole: string, frac: string, suffix: char)
    requires AllDigits(whole) && AllDigits(frac) && whole != "" && Unit(suffix).Some?
    ensures ParseSize(SizeText(whole, frac, suffix))
      == DigitsValue(whole + frac) * Unit(suffix).value / Pow10(|frac|)
  {
    var s := SizeText(whole, frac, suffix);
    assert s[0] == whole[0] && IsDigit(s[0]);
    OwnEndsKept(s);
    TrimmedIsFloor(whole, frac, suffix);
  }

  /** A size below 8192 units fits 64 bits, whatever the unit and however many decimals. */
  lemma SizeFits(whole: string, frac: string, suffix: char)
    requires AllDigits(whole) && AllDigits(frac) && whole != "" && Unit(suffix).Some?
    requires DigitsValue(whole + frac) < 8192 * Pow10(|frac|)
    ensures 0 <= ParseSize(SizeText(whole, frac, suffix)) <= 0x7FFF_FFFF_FFFF_FFFF
  {
    SizeIsFloor(whole, frac, suffix);
    FloorFits(DigitsValue(whole + frac), Pow10(|frac|), Unit(suffix).value) by {
      UnitBound(suffix);
    }
  }

  lemma FloorFits(v: nat, p: nat, u: nat)
    requires v < 8192 * p && 0 < 8192 * u <= MAX_INT64 + 1
    ensures 0 <= v * u / p <= MAX_INT64
  {
    ScaledBelow(v, 8192, p, u);
    BelowLimit(v * u, 8192 * u, p);
  }

  lemma UnitBound(suffix: char)
    requires Unit(suffix).Some?
    ensures 0 < 8192 * Unit(suffix).value <= MAX_INT64 + 1
  {
  }

  lemma ScaledBelow(v: nat, limit: nat, p: nat, u: nat)
    requires v < limit * p && u > 0
    ensures v * u < limit * u * p
  {
    Scale(v + 1, limit * p, u);
    Rearrange(limit, p, u);
  }

  lemma BelowLimit(a: nat, limit: nat, p: nat)
    requires p > 0 && a < limit * p
    ensures a / p < limit
  {
    if a / p >= limit {
      Scale(limit, a / p, p);
    }
  }

  /** A size as lsblk can print it: a decimal with a unit, or a count of bytes. */
  datatype Size = Scaled(whole: string, frac: string, suffix: char) | Count(digits: string)

  predicate IsSize(z: Size) {
    match z
    case Scaled(whole, frac, suffix) =>
      AllDigits(whole) && AllDigits(frac) && AllDigits(whole + frac) && whole != "" && Unit(suffix).Some?
    case Count(digits) => digits != "" && AllDigits(digits)
  }

  function TextOf(z: Size): string {
    match z
    case Scaled(whole, frac, suffix) => SizeText(whole, frac, suffix)
    case Count(digits) => digits
  }

  /** The bytes z denotes, as a whole number of parts of which there are Parts(z) in a byte. */
  function Amount(z: Size): nat
    requires IsSize(z)
  {
    match z
    case Scaled(whole, frac, suffix) => DigitsValue(whole + frac) * Unit(suffix).value
    case Count(digits) => DigitsValue(digits)
  }

  function Parts(z: Size): (p: nat)
    ensures p >= 1
  {
    if z.Scaled? then Pow10(|z.frac|) else 1
  }

  /** A count of bytes stands for itself, up to the limit of 64 bits. */
  lemma CountIsItself(digits: string)
    requires digits != "" && AllDigits(digits)
    ensures ParseSize(digits) == Min(DigitsValue(digits), 0x7FFF_FFFF_FFFF_FFFF)
  {
    assert IsDigit(digits[0]) && IsDigit(digits[|digits| - 1]);
    OwnEndsKept(digits);
    assert Unit(digits[|digits| - 1]).None?;
  }

  lemma SizeOf(z: Size)
    requires IsSize(z)
    ensures z.Scaled? ==> ParseSize(TextOf(z)) == Amount(z) / Parts(z)
    ensures z.Count? ==> ParseSize(TextOf(z)) == if Amount(z) > MAX_INT64 then MAX_INT64 else Amount(z)
  {
    match z {
      case Scaled(whole, frac, suffix) => SizeIsFloor(whole, frac, suffix);
      case Count(digits) => CountIsItself(digits);
    }
  }

  /** Of two sizes, in whatever units and with however many decimals, the one that denotes more is
      parsed to at least as much, but for one case: a decimal beyond the limit of 64 bits, which no
      conversion holds, against a count of bytes, which is cut off there. */
  lemma SizeMonotone(a: Size, b: Size)
    requires IsSize(a) && IsSize(b) && Amount(a) * Parts(b) <= Amount(b) * Parts(a)
    ensures ParseSize(TextOf(a)) <= ParseSize(TextOf(b)) <==>
      !(a.Scaled? && b.Count? && ParseSize(TextOf(a)) > MAX_INT64)
  {
    SizeOf(a);
    SizeOf(b);
    FloorMonotone(Amount(a), Parts(a), Amount(b), Parts(b));
  }

  // ---------------------------------------------------------------- the listing

  function ParseLine(line: string): Option<Disk> {
    var fields := Fields(line);
    if |fields| < 3 || fields[1] != "disk" || ParseSize(fields[2]) == 0 then None
    else Some(Disk(fields[0], ParseSize(fields[2])))
  }

  function DisksOf(lines: seq<string>): seq<Disk> {
    if lines == [] then []
    else
      DisksOf(lines[..|lines| - 1]) +
      match ParseLine(lines[|lines| - 1])
      case Some(d) => [d]
      case None => []
  }

  function LinesOf(output: string): seq<string> {
    Split(TrimSpace(output), '\n')
  }

  /** A row lsblk prints: path, type and size in columns. */
  datatype Row = Row(path: string, kind: string, size: string, gap1: string, gap2: string)

  predicate IsColumn(s: string) {
    s != "" && SpaceFree(s)
  }

  predicate IsGap(s: string) {
    s != "" && AllSpace(s) && '\n' !in s
  }

  predicate Printable(r: Row) {
    IsColumn(r.path) && IsColumn(r.kind) && IsColumn(r.size) && IsGap(r.gap1) && IsGap(r.gap2)
  }

  function RowText(r: Row): string {
    r.path + (r.gap1 + (r.kind + (r.gap2 + r.size)))
  }

  /** What a row stands for: a disk of its size, unless it is of another type or has no size. */
  function RowDisk(r: Row): Option<Disk> {
    if r.kind == "disk" && ParseSize(r.size) != 0 then Some(Disk(r.path, ParseSize(r.size))) else None
  }

  lemma RowFields(r: Row)
    requires Printable(r)
    ensures Fields(RowText(r)) == [r.path, r.kind, r.size]
  {
    assert r.size + "" == r.size && Fields("") == [];
    FieldsCons(r.size, "");
    FieldsSkipsSpace(r.gap2, r.size);
    FieldsCons(r.kind, r.gap2 + r.size);
    FieldsSkipsSpace(r.gap1, r.kind + (r.gap2 + r.size));
    FieldsCons(r.path, r.gap1 + (r.kind + (r.gap2 + r.size)));
  }

  /** A printed row is read as the disk it stands for. */
  lemma RowParses(r: Row)
    requires Printable(r)
    ensures ParseLine(RowText(r)) == RowDisk(r)
  {
    RowFields(r);
  }

  function RowDisks(rows: seq<Row>): seq<Disk> {
    if rows == [] then []
    else
      RowDisks(rows[..|rows| - 1]) +
      match RowDisk(rows[|rows| - 1])
      case Some(d) => [d]
      case None => []
  }

  function RowTexts(rows: seq<Row>): (texts: seq<string>)
    ensures |texts| == |rows|
  {
    seq(|rows|, i requires 0 <= i < |rows| => RowText(rows[i]))
  }

  lemma {:induction false} RowTextsParse(rows: seq<Row>)
    requires forall i | 0 <= i < |rows| :: Printable(rows[i])
    ensures DisksOf(RowTexts(rows)) == RowDisks(rows)
  {
    if rows != [] {
      var n := |rows| - 1;
      RowTextsParse(rows[..n]);
      RowParses(rows[n]);
      assert RowTexts(rows)[..n] == RowTexts(rows[..n]);
    }
  }

  lemma RowTextEnds(r: Row)
    requires Printable(r)
    ensures var t := RowText(r);
      t != "" && !IsSpace(t[0]) && !IsSpace(t[|t| - 1]) && '\n' !in t
  {
    assert RowText(r)[0] == r.path[0] && RowText(r)[|RowText(r)| - 1] == r.size[|r.size| - 1];
    assert IsSpace('\n');
    assert '\n' !in r.path && '\n' !in r.kind && '\n' !in r.size;
  }

  lemma {:induction false} JoinEnds(texts: seq<string>)
    requires texts != [] && forall i | 0 <= i < |texts| :: texts[i] != ""
    ensures var t := Join(texts, '\n'); var last := texts[|texts| - 1];
      t != "" && t[0] == texts[0][0] && t[|t| - 1] == last[|last| - 1]
  {
    if |texts| > 1 {
      JoinEnds(texts[1..]);
    }
  }

  /** List on the whole of what lsblk prints: of the rows, in order, those of type disk with a size. */
  lemma ListedRows(rows: seq<Row>)
    requires rows != [] && forall i | 0 <= i < |rows| :: Printable(rows[i])
    ensures DisksOf(LinesOf(Join(RowTexts(rows), '\n') + "\n")) == RowDisks(rows)
  {
    RowsSplit(rows);
    RowTextsParse(rows);
  }

  lemma RowsSplit(rows: seq<Row>)
    requires rows != [] && forall i | 0 <= i < |rows| :: Printable(rows[i])
    ensures LinesOf(Join(RowTexts(rows), '\n') + "\n") == RowTexts(rows)
  {
    var texts := RowTexts(rows);
    var t := Join(texts, '\n');
    forall i | 0 <= i < |rows|
      ensures texts[i] != "" && !IsSpace(texts[i][0]) && !IsSpace(texts[i][|texts[i]| - 1]) && '\n' !in texts[i]
    {
      RowTextEnds(rows[i]);
    }
    JoinEnds(texts);
    TrimSpaceOfPadded("", t, "\n");
    assert "" + t + "\n" == t + "\n";
    SplitJoin(texts, '\n');
  }

  lemma {:induction false} LineOf(lines: seq<string>, d: Disk) returns (i: nat)
    requires d in DisksOf(lines)
    ensures i < |lines| && ParseLine(lines[i]) == Some(d)
  {
    i := |lines| - 1;
    if ParseLine(lines[i]) != Some(d) {
      i := LineOf(lines[..i], d);
    }
  }

  lemma {:induction false} DiskOf(lines: seq<string>, i: nat, d: Disk)
    requires i < |lines| && ParseLine(lines[i]) == Some(d)
    ensures d in DisksOf(lines)
  {
    if i < |lines| - 1 {
      DiskOf(lines[..|lines| - 1], i, d);
    }
  }

  lemma SameLinesSameDisks(lines1: seq<string>, lines2: seq<string>, d: Disk)
    requires d in DisksOf(lines1) && forall line :: line in lines1 <==> line in lines2
    ensures d in DisksOf(lines2)
  {
    var i := LineOf(lines1, d);
    assert lines1[i] in lines2;
    var j :| 0 <= j < |lines2| && lines2[j] == lines1[i];
    DiskOf(lines2, j, d);
  }

  lemma OneMoreLine(lines: seq<string>, i: nat)
    requires i < |lines|
    ensures DisksOf(lines[..i + 1]) == DisksOf(lines[..i]) +
      match ParseLine(lines[i])
      case Some(d) => [d]
      case None => []
  {
    assert lines[..i + 1][..i] == lines[..i];
  }

  /** List; none is its "no physical disks found" or lsblk's own failure. */
  method List(output: Option<string>) returns (disks: Option<seq<Disk>>)
    ensures disks.Some? <==> output.Some? && DisksOf(LinesOf(output.value)) != []
    ensures disks.Some? ==> disks.value == DisksOf(LinesOf(output.value))
  {
    if output.None? {
      return None;
    }
    var lines := LinesOf(output.value);
    var found: seq<Disk> := [];
    for i := 0 to |lines|
      invariant found == DisksOf(lines[..i])
    {
      OneMoreLine(lines, i);
      var d := ParseLine(lines[i]);
      if d.Some? {
        found := found + [d.value];
      }
    }
    assert lines[..|lines|] == lines;
    disks := if found == [] then None else Some(found);
  }

  // ---------------------------------------------------------------- the choice

  predicate LexLess(s: string, t: string) {
    t != "" && (s == "" || s[0] < t[0] || (s[0] == t[0] && LexLess(s[1..], t[1..])))
  }

  /** The comparator of Primary: larger first, then by path. */
  predicate Before(a: Disk, b: Disk) {
    if a.bytes != b.bytes then a.bytes > b.bytes else LexLess(a.path, b.path)
  }

  /** s comes before t in dictionary order: they agree up to some place, and there s has ended or has the
      smaller character. */
  ghost predicate Precedes(s: string, t: string) {
    exists i :: 0 <= i <= |s| && i < |t| && s[..i] == t[..i] && (i == |s| || s[i] < t[i])
  }

  lemma SamePrefix(s: string, t: string, i: nat)
    ensures 0 < i <= |s| && i <= |t| && s[..i] == t[..i] ==> s[0] == t[0]
  {
    if 0 < i <= |s| && i <= |t| {
      assert s[..i][0] == s[0] && t[..i][0] == t[0];
    }
  }

  lemma {:induction false} LexLessIff(s: string, t: string)
    ensures LexLess(s, t) <==> Precedes(s, t)
  {
    if t != "" && s == "" {
      assert s[..0] == t[..0];
    } else if t != "" && s[0] != t[0] {
      assert s[..0] == t[..0];
      if Precedes(s, t) {
        var i :| 0 <= i <= |s| && i < |t| && s[..i] == t[..i] && (i == |s| || s[i] < t[i]);
        SamePrefix(s, t, i);
      }
    } else if t != "" {
      LexLessIff(s[1..], t[1..]);
      PrecedesTail(s, t);
    }
  }

  lemma PrecedesTail(s: string, t: string)
    requires s != "" && t != "" && s[0] == t[0]
    ensures Precedes(s, t) <==> Precedes(s[1..], t[1..])
  {
    if Precedes(s, t) {
      var i :| 0 <= i <= |s| && i < |t| && s[..i] == t[..i] && (i == |s| || s[i] < t[i]);
      assert i > 0;
      assert s[1..][..i - 1] == s[..i][1..] && t[1..][..i - 1] == t[..i][1..];
    }
    if Precedes(s[1..], t[1..]) {
      var i :| 0 <= i <= |s[1..]| && i < |t[1..]| && s[1..][..i] == t[1..][..i]
        && (i == |s[1..]| || s[1..][i] < t[1..][i]);
      assert s[..i + 1] == [s[0]] + s[1..][..i] && t[..i + 1] == [t[0]] + t[1..][..i];
    }
  }

  lemma {:induction false} LexTotal(s: string, t: string)
    ensures !(LexLess(s, t) && LexLess(t, s))
    ensures LexLess(s, t) || LexLess(t, s) <==> s != t
  {
    if s != "" && t != "" && s[0] == t[0] {
      LexTotal(s[1..], t[1..]);
      assert s == [s[0]] + s[1..] && t == [t[0]] + t[1..];
    }
  }

  lemma {:induction false} LexTransitive(s: string, t: string, u: string)
    requires LexLess(s, t) && LexLess(t, u)
    ensures LexLess(s, u)
  {
    if s != "" && s[0] == t[0] && t[0] == u[0] {
      LexTransitive(s[1..], t[1..], u[1..]);
    }
  }

  /** A strict total order on disks. */
  lemma BeforeIsTotalOrder(a: Disk, b: Disk, c: Disk)
    ensures !(Before(a, b) && Before(b, a))
    ensures Before(a, b) || Before(b, a) <==> a != b
    ensures Before(a, b) && Before(b, c) ==> Before(a, c)
  {
    LexTotal(a.path, b.path);
    if LexLess(a.path, b.path) && LexLess(b.path, c.path) {
      LexTransitive(a.path, b.path, c.path);
    }
  }

  predicate Sorted(disks: seq<Disk>) {
    forall i, j | 0 <= i < j < |disks| :: !Before(disks[j], disks[i])
  }

  predicate IsFirst(d: Disk, disks: seq<Disk>) {
    d in disks && forall e | e in disks :: e == d || Before(d, e)
  }

  /** sort.Slice, as insertion of one disk after another. */
  method Sort(disks: seq<Disk>) returns (sorted: seq<Disk>)
    ensures Sorted(sorted) && multiset(sorted) == multiset(disks)
  {
    sorted := [];
    for i := 0 to |disks|
      invariant Sorted(sorted) && multiset(sorted) == multiset(disks[..i])
    {
      sorted := Insert(sorted, disks[i]);
      assert disks[..i + 1] == disks[..i] + [disks[i]];
    }
    assert disks[..|disks|] == disks;
  }

  method Insert(sorted: seq<Disk>, d: Disk) returns (more: seq<Disk>)
    requires Sorted(sorted)
    ensures Sorted(more) && multiset(more) == multiset(sorted) + multiset{d}
  {
    var k := |sorted|;
    while k > 0 && Before(d, sorted[k - 1])
      invariant 0 <= k <= |sorted|
      invariant forall i | k <= i < |sorted| :: Before(d, sorted[i])
    {
      k := k - 1;
    }
    more := sorted[..k] + [d] + sorted[k..];
    assert sorted == sorted[..k] + sorted[k..];
    InsertedInOrder(sorted, k, d);
  }

  lemma InsertedInOrder(sorted: seq<Disk>, k: nat, d: Disk)
    requires Sorted(sorted) && k <= |sorted| && (k > 0 ==> !Before(d, sorted[k - 1]))
    requires forall i | k <= i < |sorted| :: Before(d, sorted[i])
    ensures Sorted(sorted[..k] + [d] + sorted[k..])
  {
    var more := sorted[..k] + [d] + sorted[k..];
    forall i, j | 0 <= i < j < |more| ensures !Before(more[j], more[i]) {
      if i == k {
        BeforeIsTotalOrder(d, more[j], d);
      } else if i < k && j == k {
        InFront(sorted, k, d, i);
      } else {
        assert more[i] == sorted[if i < k then i else i - 1];
        assert more[j] == sorted[if j < k then j else j - 1];
      }
    }
  }

  /** What stands in front of the place found for d does not come after it. */
  lemma InFront(sorted: seq<Disk>, k: nat, d: Disk, i: nat)
    requires Sorted(sorted) && i < k <= |sorted| && !Before(d, sorted[k - 1])
    ensures !Before(d, sorted[i])
  {
    BeforeIsTotalOrder(d, sorted[i], sorted[k - 1]);
    BeforeIsTotalOrder(sorted[i], sorted[k - 1], d);
  }

  /** None of the disks listed is larger, and none as large has a path that precedes. */
  ghost predicate IsChoice(d: Disk, disks: seq<Disk>) {
    && d in disks
    && forall e | e in disks :: e.bytes <= d.bytes && (e.bytes == d.bytes ==> !Precedes(e.path, d.path))
  }

  lemma FirstIsChoice(d: Disk, disks: seq<Disk>)
    requires IsFirst(d, disks)
    ensures IsChoice(d, disks)
  {
    forall e | e in disks ensures e.bytes <= d.bytes && (e.bytes == d.bytes ==> !Precedes(e.path, d.path)) {
      LexLessIff(e.path, d.path);
      LexTotal(e.path, d.path);
    }
  }

  method Primary(output: Option<string>) returns (path: Option<string>)
    ensures path.Some? <==> output.Some? && DisksOf(LinesOf(output.value)) != []
    ensures path.Some? ==> exists d :: IsFirst(d, DisksOf(LinesOf(output.value))) && path == Some(d.path)
    ensures path.Some? ==> exists d :: IsChoice(d, DisksOf(LinesOf(output.value))) && path == Some(d.path)
  {
    var disks := List(output);
    if disks.None? {
      return None;
    }
    var sorted := Sort(disks.value);
    assert |multiset(sorted)| == |multiset(disks.value)|;
    SortedHead(sorted, disks.value);
    FirstIsChoice(sorted[0], disks.value);
    path := Some(sorted[0].path);
  }

  lemma SortedHead(sorted: seq<Disk>, disks: seq<Disk>)
    requires Sorted(sorted) && multiset(sorted) == multiset(disks) && sorted != []
    ensures IsFirst(sorted[0], disks)
  {
    assert sorted[0] in multiset(disks);
    forall e | e in disks ensures e == sorted[0] || Before(sorted[0], e) {
      assert e in multiset(sorted);
      var j :| 0 <= j < |sorted| && sorted[j] == e;
      BeforeIsTotalOrder(sorted[0], e, e);
    }
  }

  /** The choice depends on which lines there are, not on their order or repetition: listings with
      the same lines have the same primary disk. */
  lemma PrimaryIsOrderIndependent(lines1: seq<string>, lines2: seq<string>, d1: Disk, d2: Disk)
    requires forall line :: line in lines1 <==> line in lines2
    requires IsFirst(d1, DisksOf(lines1)) && IsFirst(d2, DisksOf(lines2))
    ensures d1 == d2
  {
    SameLinesSameDisks(lines1, lines2, d1);
    SameLinesSameDisks(lines2, lines1, d2);
    BeforeIsTotalOrder(d1, d2, d1);
  }
}
