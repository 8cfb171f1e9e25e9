/** Block devices: partition device names and the partitions that exist. */
module Disk {
  import opened GoText

  // ---------------------------------------------------------------- device names

  function DropSlashes(path: string): string {
    if path != "" && path[|path| - 1] == '/' then DropSlashes(path[..|path| - 1]) else path
  }

  function LastElement(path: string): string {
    if path == "" || path[|path| - 1] == '/' then ""
    else LastElement(path[..|path| - 1]) + [path[|path| - 1]]
  }

  /** filepath.Base. */
  function Base(path: string): (base: string)
    ensures base != ""
  {
    if path == "" then "."
    else if DropSlashes(path) == "" then "/"
    else
      DropSlashesEnd(path);
      LastElement(DropSlashes(path))
  }

  lemma {:induction false} DropSlashesEnd(path: string)
    ensures var p := DropSlashes(path); p != "" ==> p[|p| - 1] != '/'
  {
    if path != "" && path[|path| - 1] == '/' {
      DropSlashesEnd(path[..|path| - 1]);
    }
  }

  predicate EndsInDigit(s: string) {
    s != "" && IsDigit(s[|s| - 1])
  }

  /** The disk name up to the partition number. */
  function Stem(disk: string): string {
    if EndsInDigit(Base(disk)) then disk + "p" else disk
  }

  function PartitionDevice(disk: string, n: nat): string {
    Stem(disk) + Itoa(n)
  }

  lemma StemEndsOutsideDigits(disk: string)
    ensures !EndsInDigit(Stem(disk))
  {
    if disk != "" && disk[|disk| - 1] != '/' {
      assert Base(disk) == LastElement(disk);
      assert Base(disk)[|Base(disk)| - 1] == disk[|disk| - 1];
    }
  }

  /** How many digits s ends with. */
  function TrailingDigits(s: string): (n: nat)
    ensures n <= |s|
  {
    if EndsInDigit(s) then 1 + TrailingDigits(s[..|s| - 1]) else 0
  }

  lemma {:induction false} TrailingDigitsOf(stem: string, digits: string)
    requires !EndsInDigit(stem) && AllDigits(digits)
    ensures TrailingDigits(stem + digits) == |digits|
  {
    if digits == "" {
      assert stem + digits == stem;
    } else {
      assert (stem + digits)[..|stem + digits| - 1] == stem + digits[..|digits| - 1];
      TrailingDigitsOf(stem, digits[..|digits| - 1]);
    }
  }

  /** The name gives back the number, and the disk up to the one ambiguity of the "p": a disk whose
      name ends in a digit and the disk of that name plus "p" share their partition names. */
  lemma DeviceNamesDecode(d1: string, n1: nat, d2: string, n2: nat)
    ensures PartitionDevice(d1, n1) == PartitionDevice(d2, n2) <==>
      n1 == n2 && (d1 == d2
                   || (EndsInDigit(Base(d1)) && d2 == d1 + "p")
                   || (EndsInDigit(Base(d2)) && d1 == d2 + "p"))
  {
    StemEndsOutsideDigits(d1);
    StemEndsOutsideDigits(d2);
    if PartitionDevice(d1, n1) == PartitionDevice(d2, n2) {
      var s := PartitionDevice(d1, n1);
      TrailingDigitsOf(Stem(d1), Itoa(n1));
      TrailingDigitsOf(Stem(d2), Itoa(n2));
      assert Itoa(n1) == s[|s| - |Itoa(n1)|..] == Itoa(n2);
      DigitsValueOfItoa(n1);
      DigitsValueOfItoa(n2);
      assert Stem(d1) == s[..|s| - |Itoa(n1)|] == Stem(d2);
      SameStem(d1, d2);
    } else if n1 == n2 {
      SameStem(d1, d2);
    }
  }

  lemma SameStem(d1: string, d2: string)
    ensures Stem(d1) == Stem(d2) <==>
      d1 == d2 || (EndsInDigit(Base(d1)) && d2 == d1 + "p") || (EndsInDigit(Base(d2)) && d1 == d2 + "p")
  {
    AppendedP(d1);
    AppendedP(d2);
    assert (d1 + "p")[..|d1|] == d1 && (d2 + "p")[..|d2|] == d2;
  }

  lemma AppendedP(disk: string)
    ensures Stem(disk + "p") == disk + "p"
  {
    var d := disk + "p";
    assert Base(d) == LastElement(d);
    assert Base(d)[|Base(d)| - 1] == 'p';
  }

  /** What DropSlashes takes off is slashes, and all of those at the end. */
  lemma {:induction false} DropSlashesSplits(path: string) returns (slashes: string)
    ensures path == DropSlashes(path) + slashes && forall i | 0 <= i < |slashes| :: slashes[i] == '/'
    ensures var p := DropSlashes(path); p != "" ==> p[|p| - 1] != '/'
  {
    slashes := "";
    if path != "" && path[|path| - 1] == '/' {
      slashes := DropSlashesSplits(path[..|path| - 1]);
      assert path == path[..|path| - 1] + "/";
      slashes := slashes + "/";
    }
  }

  lemma BaseEnd(path: string)
    ensures EndsInDigit(Base(path)) <==> EndsInDigit(DropSlashes(path))
  {
    DropSlashesEnd(path);
    var p := DropSlashes(path);
    if p != "" {
      assert Base(path)[|Base(path)| - 1] == p[|p| - 1];
    }
  }

  /** What a device name is made of: the disk, a "p" exactly when the disk ends in a digit, slashes at its
      end not counted, and the number in decimal without leading zeros, which is all of the digits the
      name ends with. */
  lemma NameCarriesNumber(disk: string, n: nat) returns (separator: string, digits: string)
    ensures PartitionDevice(disk, n) == disk + separator + digits
    ensures separator == if EndsInDigit(DropSlashes(disk)) then "p" else ""
    ensures digits != "" && AllDigits(digits) && DigitsValue(digits) == n
    ensures if n == 0 then digits == "0" else digits[0] != '0'
    ensures !EndsInDigit(disk + separator)
  {
    separator, digits := if EndsInDigit(DropSlashes(disk)) then "p" else "", Itoa(n);
    BaseEnd(disk);
    StemEndsOutsideDigits(disk);
    DigitsValueOfItoa(n);
    ItoaIsCanonical(n);
    assert disk + "" == disk;
  }

  /** The names of the documentation. */
  lemma KnownNames()
    ensures PartitionDevice("/dev/sda", 1) == "/dev/sda1"
    ensures PartitionDevice("/dev/nvme0n1", 12) == "/dev/nvme0n1p12"
  {
    assert DropSlashes("/dev/sda") == "/dev/sda" && DropSlashes("/dev/nvme0n1") == "/dev/nvme0n1";
    assert "/dev/sda"[7] == 'a' && "/dev/nvme0n1"[11] == '1';
    BaseEnd("/dev/sda");
    BaseEnd("/dev/nvme0n1");
    assert Itoa(1) == "1" && Itoa(12) == Itoa(1) + "2";
  }

  /** On one disk, different numbers have different devices. */
  lemma DevicesDistinct(disk: string, n1: nat, n2: nat)
    requires n1 != n2
    ensures PartitionDevice(disk, n1) != PartitionDevice(disk, n2)
  {
    DeviceNamesDecode(disk, n1, disk, n2);
  }

  // ---------------------------------------------------------------- discovery

  const MAX_PARTS: nat := 128

  function Existing(exists_: nat -> bool, numbers: seq<nat>): seq<nat> {
    if numbers == [] then []
    else
      var last := numbers[|numbers| - 1];
      Existing(exists_, numbers[..|numbers| - 1]) + if exists_(last) then [last] else []
  }

  function UpTo(max: nat): seq<nat> {
    seq(max, i requires 0 <= i < max => i + 1)
  }

  /** The numbers 1..max that exist, in order. */
  function Numbers(exists_: nat -> bool, max: nat): seq<nat> {
    Existing(exists_, UpTo(max))
  }

  lemma OneMoreNumber(exists_: nat -> bool, max: nat)
    requires max > 0
    ensures Numbers(exists_, max) == Numbers(exists_, max - 1) + if exists_(max) then [max] else []
  {
    assert UpTo(max)[..max - 1] == UpTo(max - 1) && UpTo(max)[max - 1] == max;
  }

  function Devices(disk: string, numbers: seq<nat>): seq<string> {
    seq(|numbers|, i requires 0 <= i < |numbers| => PartitionDevice(disk, numbers[i]))
  }

  /** The devices of the existing numbers among 1..128, in order. */
  method DiscoverPartitions(disk: string, exists_: nat -> bool) returns (parts: seq<string>)
    ensures parts == Devices(disk, Numbers(exists_, MAX_PARTS))
    ensures forall n: nat :: PartitionDevice(disk, n) in parts <==> 1 <= n <= 128 && exists_(n)
  {
    parts := [];
    for i := 1 to MAX_PARTS + 1
      invariant parts == Devices(disk, Numbers(exists_, i - 1))
    {
      OneMoreNumber(exists_, i);
      if exists_(i) {
        parts := parts + [PartitionDevice(disk, i)];
      }
    }
    DevicesOfNumbers(disk, exists_, MAX_PARTS);
  }

  lemma DevicesOfNumbers(disk: string, exists_: nat -> bool, max: nat)
    ensures forall n: nat :: PartitionDevice(disk, n) in Devices(disk, Numbers(exists_, max)) <==>
      1 <= n <= max && exists_(n)
  {
    var numbers := Numbers(exists_, max);
    NumbersSound(exists_, max);
    forall n: nat ensures PartitionDevice(disk, n) in Devices(disk, numbers) <==> n in numbers {
      if n in numbers {
        var i :| 0 <= i < |numbers| && numbers[i] == n;
        assert Devices(disk, numbers)[i] == PartitionDevice(disk, n);
      }
      if PartitionDevice(disk, n) in Devices(disk, numbers) {
        var i :| 0 <= i < |numbers| && Devices(disk, numbers)[i] == PartitionDevice(disk, n);
        DeviceNamesDecode(disk, numbers[i], disk, n);
      }
    }
  }

  /** The discovered numbers are exactly the existing ones, each once, in increasing order. */
  lemma {:induction false} NumbersSound(exists_: nat -> bool, max: nat)
    ensures forall n :: n in Numbers(exists_, max) <==> 1 <= n <= max && exists_(n)
    ensures Increasing(Numbers(exists_, max))
  {
    if max > 0 {
      NumbersSound(exists_, max - 1);
      OneMoreNumber(exists_, max);
      var before := Numbers(exists_, max - 1);
      assert forall i | 0 <= i < |before| :: before[i] in before;
    }
  }

  /** The numbers 1..n all exist. */
  predicate NoneMissing(exists_: nat -> bool, n: nat) {
    forall k | 1 <= k <= n :: exists_(k)
  }

  predicate GapFree(exists_: nat -> bool, max: nat) {
    forall i, j | 1 <= i <= j <= max && exists_(j) :: exists_(i)
  }

  predicate Increasing(numbers: seq<nat>) {
    forall i, j | 0 <= i < j < |numbers| :: numbers[i] < numbers[j]
  }

  /** A strictly increasing list of positive numbers never lags behind its positions, and gets no
      closer to them on the way. */
  lemma {:induction false} NeverLags(numbers: seq<nat>, i: nat, j: nat)
    requires j <= i < |numbers| && numbers[0] >= 1 && Increasing(numbers)
    ensures j + 1 <= numbers[j] <= numbers[i] - (i - j)
    decreases i
  {
    if j < i {
      NeverLags(numbers, i - 1, j);
    } else if i > 0 {
      NeverLags(numbers, i - 1, 0);
    }
  }

  /** A number stands at its own position exactly when no number below it is missing. */
  lemma {:induction false} InPlaceIff(numbers: seq<nat>, i: nat)
    requires i < |numbers| && numbers[0] >= 1 && Increasing(numbers)
    ensures numbers[i] == i + 1 <==> forall n | 1 <= n <= i + 1 :: n in numbers
    decreases i
  {
    NeverLags(numbers, i, 0);
    if numbers[i] == i + 1 {
      forall n: nat | 1 <= n <= i + 1 ensures n in numbers {
        NeverLags(numbers, i, n - 1);
        assert numbers[n - 1] == n;
      }
    } else if forall n | 1 <= n <= i + 1 :: n in numbers {
      assert i + 1 in numbers;
      var k :| 0 <= k < |numbers| && numbers[k] == i + 1;
      NeverLags(numbers, i, i);
      InPlaceIff(numbers, k);
    }
  }

  /** The device at position i carries a number of at least i + 1, and carries i + 1, the part number
      Capture gives it, exactly when none of the numbers up to there is missing. */
  lemma PartNumberAgreesIff(disk: string, exists_: nat -> bool, max: nat, i: nat)
    requires i < |Numbers(exists_, max)|
    ensures i + 1 <= Numbers(exists_, max)[i] <= max && exists_(Numbers(exists_, max)[i])
    ensures Devices(disk, Numbers(exists_, max))[i] == PartitionDevice(disk, i + 1) <==>
      NoneMissing(exists_, i + 1)
    ensures Devices(disk, Numbers(exists_, max))[i] == PartitionDevice(disk, i + 1) <==>
      Numbers(exists_, max)[i] == i + 1
  {
    var numbers := Numbers(exists_, max);
    NumbersSound(exists_, max);
    assert numbers[i] in numbers && numbers[0] in numbers;
    NeverLags(numbers, i, i);
    InPlaceIff(numbers, i);
    if numbers[i] != i + 1 {
      DevicesDistinct(disk, numbers[i], i + 1);
    }
  }

  /** Device i carries partition number i + 1, the part number Capture gives it. */
  predicate Positional(disk: string, parts: seq<string>) {
    forall i | 0 <= i < |parts| :: parts[i] == PartitionDevice(disk, i + 1)
  }

  /** The part number of a discovered device is its partition number, for every device, exactly when
      the existing numbers have no gap. */
  lemma PartNumbersAgreeIffGapFree(disk: string, exists_: nat -> bool, max: nat)
    ensures Positional(disk, Devices(disk, Numbers(exists_, max))) <==> GapFree(exists_, max)
  {
    var numbers := Numbers(exists_, max);
    NumbersSound(exists_, max);
    forall i | 0 <= i < |numbers|
      ensures i + 1 <= numbers[i] <= max && exists_(numbers[i])
      ensures Devices(disk, numbers)[i] == PartitionDevice(disk, i + 1) <==> NoneMissing(exists_, i + 1)
      ensures Devices(disk, numbers)[i] == PartitionDevice(disk, i + 1) <==> numbers[i] == i + 1
    {
      PartNumberAgreesIff(disk, exists_, max, i);
    }
    if Positional(disk, Devices(disk, numbers)) {
      forall i, j | 1 <= i <= j <= max && exists_(j) ensures exists_(i) {
        assert j in numbers;
        var m :| 0 <= m < |numbers| && numbers[m] == j;
        assert Devices(disk, numbers)[m] == PartitionDevice(disk, m + 1);
      }
    }
  }

  /** There is no gap exactly when none of the first numbers is missing, as many as exist in all. */
  lemma GapFreeIffNoneMissing(exists_: nat -> bool, max: nat)
    ensures GapFree(exists_, max) <==> NoneMissing(exists_, |Numbers(exists_, max)|)
  {
    var numbers := Numbers(exists_, max);
    NumbersSound(exists_, max);
    PartNumbersAgreeIffGapFree("", exists_, max);
    forall i | 0 <= i < |numbers|
      ensures Devices("", numbers)[i] == PartitionDevice("", i + 1) <==> NoneMissing(exists_, i + 1)
    {
      PartNumberAgreesIff("", exists_, max, i);
    }
    var parts := Devices("", numbers);
    if NoneMissing(exists_, |numbers|) {
      forall i | 0 <= i < |parts| ensures parts[i] == PartitionDevice("", i + 1) {
        assert NoneMissing(exists_, i + 1);
      }
    } else if numbers != [] {
      assert parts[|numbers| - 1] != PartitionDevice("", |numbers| - 1 + 1);
    }
  }
}
