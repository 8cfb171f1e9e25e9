# fos-next agent: verified model

The fos-next agent (`fos-agent`) images disks: a capture uploads a disk's partition table and
partitions to a server, a deploy writes them to another disk, and a log forwarder ships the agent's
log records in the background. This project models the parts of the agent that hold state machines,
streams and parsers, and proves what they promise.

## Reading guide

| file | what it models |
|---|---|
| `LogQueue.dfy`, `RemoteHandler.dfy` | the log forwarder: an abstract drop-oldest queue with its whole-run properties, and the Go slice (array, offset, length, capacity) that refines it |
| `ClonePipe.dfy` | the goroutine, the pipe, the HTTP transport and `errCh` of one partition's upload, as a state machine over all interleavings |
| `Readers.dfy` | byte-slice, limit and multi readers, `io.ReadAll` and the one-byte peek, for every chunking |
| `Utf8.dfy`, `Base64.dfy`, `Json.dfy` | the codecs under the two JSON blobs; decoding is defined on every input |
| `Sentinel.dfy`, `PartitionTable.dfy` | the swap sentinel and the partition-table blob |
| `Disk.dfy`, `Lsblk.dfy` | partition device names, discovery, lsblk sizes and the choice of the disk |
| `Decimal.dfy`, `StatusLine.dfy` | the partclone status line, printed and read back, whole or torn |
| `Parted.dfy`, `Cmdline.dfy`, `Client.dfy`, `Resize.dfy` | the last partition number, the kernel command line, the retry loop, the shrink and expand dispatch |
| `Machine.dfy`, `Capture.dfy`, `Deploy.dfy`, `Dispatch.dfy` | the actions, and what the server hears of them |
| `RoundTrip.dfy`, `Examples.dfy` | a capture followed by a deploy, and two runs that end well and lose a partition |
| `Wrappers.dfy`, `GoText.dfy` | shared vocabulary: options, bytes, Go's string functions |

What the agent does not decide is a parameter. An `Environment` holds total functions from part and
attempt numbers to outcomes (downloads, tool results, `blkid` answers, the interleaving of the clone
pipe), so a statement about every environment is a statement about every pattern of failures.
partclone is a pair of functions, clone and restore. Where a theorem needs them to be inverse, and no
clone stream to start with a brace, it says so (`Machine.Recoverable`), for the volumes captured.

Of an upload that fails the server holds as much as it was sent, whatever was uploaded. A report is
one call of `Complete`, which posts through the retry loop of `Client.dfy`; each way out of an action
makes its own.

Each operation of the log handler holds the mutex for all of its effect, so interleavings are
sequences of operations. `SendLogs` runs after the mutex is released, on an array that is the
batch's own.

Text is modelled as Unicode characters and bytes as 0..255; `Utf8.dfy` connects the two. Decimals are
exact: a number is a mantissa and a power of ten.

## What does not hold

- Capture numbers parts by position and Deploy takes the part number for a device number, so a disk
  with a gap in its numbering comes back with partitions moved. `RoundTrip.SourceOfPart` says which
  partition each part then holds; `RoundTrip.ComesBackInPlaceIff` and `RoundTrip.AllInPlaceIff` say
  exactly when a partition, and the whole disk, comes back in place; `Examples.PartitionMoves` runs both
  actions on a disk with the partitions 1 and 3, whose partition 3 comes back as partition 2.
- A part whose body starts with a brace and is not a swap sentinel, malformed JSON included, is
  reported as done with nothing written: `Deploy.SilentSkipIff`, with two such bodies in
  `Sentinel.SkippedBodies`.
- The offset a download resumes from never moves: `Deploy.PartsAreTakenInOrder` proves every download
  starts at byte 0.
- A capture shrinks the source and leaves it shrunk, failed captures included:
  `Capture.SourceStaysShrunk`. `Capture.SourceUnchangedIff` says exactly when a filesystem is left as
  it was, and `Examples.PartitionMoves` leaves two shrunk.
- A capture whose metadata could not be posted still reports success, and the server keeps the
  metadata it had: `Capture.Capture`. `RoundTrip.PartIsBackIff` and `RoundTrip.AllBackIff` say exactly
  which captured parts then come back: those the old metadata counts. `Examples.PartIsLeftOut` runs both
  actions with success and leaves the second of two parts behind.
- An encrypted volume is kept out of a capture only where blkid calls it ntfs, not where blkid calls it
  BitLocker: `Capture.EncryptedIsCapturedIff`.
- A child handler made by `WithAttrs` or `WithGroup` writes to its parent's array:
  `RemoteHandler.ParentThenChild` says what the parent then holds, below capacity and at it, and
  `RemoteHandler.ChildHarmlessIff` exactly when the parent's queue survives.
- A speed unit other than KB, MB, GB and TB per minute, plain bytes included, is read as bits:
  `StatusLine.SpeedReadsRightIff` says exactly when the speed read is right, for every line that can
  be printed, and `StatusLine.WrongLine` is a line that reads wrong.
- The comment on `List` promises kernel enumeration order; the code keeps lsblk's order, and the
  choice in `Primary` does not depend on it (`Lsblk.PrimaryIsOrderIndependent`).

## Model

| member | source | states |
|---|---|---|
| LogQueue.RunConsistent | agent/internal/api/loghandler.go:74-147 | after any interleaving of Handle, SetClient and flush: at most 2000 records wait and they are the newest ones, batches are disjoint windows of the history in increasing order with at most 100 records each, and handled = sent + dropped + waiting |
| LogQueue.AtMostOnce | agent/internal/api/loghandler.go:130-141 | no position of the history lies in two batches or in a batch while it waits, and a batch holds the very records of its positions |
| LogQueue.CompleteIffNothingDropped | agent/internal/api/loghandler.go:70-90 | sent followed by waiting is the whole history, in order, exactly when nothing was dropped |
| LogQueue.RunFromStart | agent/internal/api/loghandler.go:49-51 | both of the above for every run of a new handler |
| LogQueue.PacedRunLosesNothing | agent/internal/api/loghandler.go:11-15 | with the client set, room for a batch at the start and at most 100 records between flushes, no run of any length drops a record |
| LogQueue.BurstDropsOverflow | agent/internal/api/loghandler.go:80-86 | without a flush exactly the overflow over 2000 is dropped, oldest first |
| LogQueue.Drain | agent/internal/api/loghandler.go:124-136 | n flushes send exactly the first 100 n waiting records, in order |
| LogQueue.DrainedExactly | agent/internal/api/loghandler.go:116-136 | without new records the buffer is empty after n flushes exactly when n is at least the length over 100, rounded up |
| LogQueue.LastSetClientCounts | agent/internal/api/loghandler.go:56-60 | after a run the client is that of its last SetClient |
| LogQueue.FlushSends | agent/internal/api/loghandler.go:124-141 | a flush anywhere in a run takes the oldest records waiting, at most 100, for the client in force then, exactly when there is one and something waits, and nothing later changes that batch |
| LogQueue.SentAfterSetClient | agent/internal/api/loghandler.go:53-63 | setting a client makes everything that waits go out to it, in order, within one flush for every 100 records |
| RemoteHandler.Handler.constructor | agent/internal/api/loghandler.go:49-51 | a new handler is the empty queue on an array of capacity 2000 |
| RemoteHandler.Handler.Sharing | agent/internal/api/loghandler.go:92-110 | a child handler copies the slice header and shares the array |
| RemoteHandler.Handler.ShiftOut | agent/internal/api/loghandler.go:81-85 | the overlapping copy and reslice remove exactly the oldest record |
| RemoteHandler.Handler.Append | agent/internal/api/loghandler.go:86 | append writes one free cell in place, or moves to a new array of any sufficient capacity and leaves the old one as it was |
| RemoteHandler.Handler.Handle | agent/internal/api/loghandler.go:74-90 | the slice steps as the abstract queue does; it says when the array is kept and which cells change |
| RemoteHandler.Handler.SetClient | agent/internal/api/loghandler.go:56-60 | the target is the one given, and nothing else changes |
| RemoteHandler.Handler.TakeFront | agent/internal/api/loghandler.go:130-136 | the batch is a copy of the front on an array of its own, and the slice keeps the rest |
| RemoteHandler.Handler.Flush | agent/internal/api/loghandler.go:124-139 | the slice steps as the abstract flush does; a batch comes out exactly when a client is set and something waits |
| RemoteHandler.RunOperations | agent/internal/api/loghandler.go:74-139 | any run of the slice refines the run of the queue, and no batch taken earlier ever changes |
| RemoteHandler.RunNewHandler | agent/internal/api/loghandler.go:49-139 | the whole-run invariant holds for the slice from its construction on |
| RemoteHandler.FirstFlush | agent/internal/api/loghandler.go:49-141 | of a new handler a record from before SetClient and one from after go out with the next flush, to that client |
| RemoteHandler.Handler.Push | agent/internal/api/loghandler.go:81-86 | what is done under the mutex on any slice that fits its array, shared or not: shift when full, then append |
| RemoteHandler.ParentThenChild | agent/internal/api/loghandler.go:92-110 | after a parent and its child each handle a record the parent holds the child's in place of its own, or has lost one record more and got the child's, or has moved to a new array |
| RemoteHandler.ChildHarmlessIff | agent/internal/api/loghandler.go:92-110 | the parent's queue survives exactly when the array was used up or the records cannot be told apart |
| ClonePipe.RunInvariant | agent/internal/actions/actions.go:283-297 | received, in-flight and unsent bytes always make up the clone's output; the report is sent once |
| ClonePipe.NoTruncatedImage | agent/internal/actions/actions.go:283-298 | in every interleaving Capture moves on only if the transport read exactly the bytes of a successful clone; at any time it has read a prefix |
| ClonePipe.AdvancedIffBothSucceeded | agent/internal/actions/actions.go:290-297 | at rest, Capture has moved on exactly when upload and clone both succeeded |
| ClonePipe.ReportNeverBlocks | agent/internal/actions/actions.go:284-288 | the goroutine's send on the one-slot channel is always possible, even when Capture has given up |
| ClonePipe.NeverStuck | agent/internal/actions/actions.go:283-297 | every reachable state that is not final has an enabled step |
| ClonePipe.OnlyTransportUnblocks | agent/internal/actions/actions.go:290-293 | after a failed upload a blocked write can only go on by the transport reading or closing the body |
| ClonePipe.RunsAreFinite | agent/internal/actions/actions.go:283-297 | every step decreases a measure, so runs are bounded by the image |
| ClonePipe.CanFinish | agent/internal/actions/actions.go:283-297 | every interleaving, wherever it has got to, can be brought to its end |
| ClonePipe.CanSucceed | agent/internal/actions/actions.go:283-298 | every image, the empty one included, gets through when nothing fails |
| ClonePipe.BrokenUpload | agent/internal/actions/actions.go:283-293 | a connection may break after any part of an image: the server holds that prefix and Capture gives up |
| ClonePipe.EarlyAnswer | agent/internal/actions/actions.go:290-297 | an upload accepted before anything was read is not enough: the clone fails and Capture gives up |
| Readers.ByteSliceReader.Read | agent/internal/actions/sys.go:34-41 | delivers the next bytes that fit, ends exactly when none are left, and touches nothing outside its buffer |
| Readers.LimitedReader.Read | agent/internal/actions/sys.go:25-27 | the same below a limit: as many bytes as fit, and the end exactly when none are left |
| Readers.BytesReader | agent/internal/actions/sys.go:25-27 | the upload body of a byte slice stands for exactly that slice |
| Readers.Drain | agent/internal/actions/sys.go:25-41 | drained with any positive buffer sizes it yields its bytes and ends, in at most one read a byte and one more |
| Readers.BodyReader.Read | agent/internal/api/client.go:177-185 | a response body cut into chunks in any way delivers its bytes in order and ends or breaks after them |
| Readers.MultiReader.Read | agent/internal/actions/actions.go:132 | the parts are read one after the other, with progress at every read |
| Readers.ReadAll | agent/internal/actions/sys.go:47-50 | returns the whole stream, and an error exactly when the stream broke |
| Readers.Peek | agent/internal/actions/actions.go:130-131 | takes the first byte if there is one and leaves the rest |
| Readers.PeekThenReadAll | agent/internal/actions/actions.go:128-135 | peeking is transparent: whoever reads on sees the original body, the empty one included, and the sentinel test is about its first byte |
| Utf8.DecodeEncode | agent/internal/actions/sys.go:54-57 | every string of Unicode characters survives being sent as bytes |
| Utf8.LeadIsEncoded | agent/internal/actions/sys.go:54-57 | only the encoding of a character is read as that character: nothing overlong, no surrogate |
| Utf8.Vectors | agent/internal/actions/sys.go:54-57 | one character of each encoded length |
| Base64.DecodeEncode | agent/internal/partition/partition.go:144-152 | every byte string survives section 4 of RFC 4648 as encoded and decoded here |
| Base64.DecodedIsPadded | agent/internal/partition/partition.go:151-155 | what decodes is whole groups, padded in the last two places only |
| Base64.BreaksDoNotMatter | agent/internal/partition/partition.go:151-155 | a line break anywhere in the text makes no difference |
| Base64.GroupIsNumber | agent/internal/partition/partition.go:144-147 | three bytes are written as the four base-64 digits of one 24-bit number |
| Base64.Vectors | agent/internal/partition/partition.go:144-147 | test vectors of section 10 of RFC 4648 |
| Json.EscapedTextParses | agent/internal/actions/sys.go:54-57 | every string literal Marshal writes is read back, escapes included |
| Json.PrintedStructParses | agent/internal/partition/partition.go:34-40 | Unmarshal reads back every member of a struct of strings |
| Json.PrintedStruct | agent/internal/actions/sys.go:54-57 | the exact text of a struct of two plain strings, the second left out when empty |
| Json.NothingMayFollow | agent/internal/actions/actions.go:143-144 | after an object only white space may follow, or the whole is no JSON |
| Json.DeepestArray | agent/internal/actions/actions.go:143-144 | 10000 levels of nesting are JSON, more are not |
| Json.NamesMatch | agent/internal/actions/actions.go:143-144 | a member is matched to a field whatever the case of its letters |
| Sentinel.MarshalRoundTrip | agent/internal/actions/actions.go:242-246 | every sentinel starts with a brace and decodes to its own type and UUID, the omitted empty UUID included |
| Sentinel.SentinelText | agent/internal/actions/actions.go:242-246 | the exact text of the swap sentinel, and that Deploy reads that text as the order to make that swap |
| Sentinel.UploadsAreUnambiguous | agent/internal/actions/actions.go:128-159 | a sentinel orders exactly its own swap, any stream not starting with a brace is restored byte for byte, and no two sources share an upload |
| Sentinel.SkippedBodies | agent/internal/actions/actions.go:143-155 | two bodies, one malformed and one of another type, that are skipped without an error |
| PartitionTable.MarshalRoundTrip | agent/internal/partition/partition.go:34-40 | every table blob is read back field by field |
| PartitionTable.BackupRestores | agent/internal/partition/partition.go:58-90 | Restore takes the path of the table Backup found and hands on identical sgdisk bytes, or the identical boot code of the sector read and the identical sfdisk dump |
| PartitionTable.DosGoesByMbr | agent/internal/partition/partition.go:50-71 | when blkid prints dos a backup needs the dump and the sector, and asks a restore for the first 446 bytes read and the dump |
| PartitionTable.OthersGoByGpt | agent/internal/partition/partition.go:44-71 | for everything else blkid prints, and when it fails, a backup needs sgdisk alone, and asks a restore for its bytes |
| PartitionTable.SectorIsWhole | agent/internal/partition/partition.go:206-216 | the sector in an MBR blob is 512 bytes |
| PartitionTable.TypeDecides | agent/internal/partition/partition.go:84-89 | a blob goes the MBR way exactly when its type is mbr, and every other type the GPT way |
| PartitionTable.OddBlobs | agent/internal/partition/partition.go:78-89 | null stands for the empty blob; a value of another type, or a type or mbr field that is no string, makes the whole a raw backup |
| PartitionTable.RestoreHolds | agent/internal/partition/partition.go:74-90 | when all steps succeed the disk holds what the plan asked for; the boot code changes only once sgdisk has run or the disk is open for writing; a failed restore leaves the old table, none, or a damaged one |
| PartitionTable.LegacyBackup | agent/internal/partition/partition.go:78-83 | a blob is loaded as it stands, as a raw sgdisk backup, exactly when Unmarshal fails on it |
| PartitionTable.RestoreSgdiskRaw | agent/internal/partition/partition.go:159-185 | success exactly when temp file and load succeed, a failed zap ignored; the table each failure leaves |
| PartitionTable.RestoreGpt | agent/internal/partition/partition.go:151-157 | undecodable base64 leaves the table alone |
| PartitionTable.RestoreMbr | agent/internal/partition/partition.go:219-250 | only the first 446 bytes are written, before sfdisk; a short or undecodable sector leaves the disk alone; what each failure leaves |
| PartitionTable.Restore | agent/internal/partition/partition.go:76-90 | success exactly when the blob is readable and its steps succeed, and then the disk holds what the blob asked for; boot code and table in every other case |
| Disk.NameCarriesNumber | agent/internal/disk/disk.go:92-100 | a device name is the disk, a p exactly when the disk ends in a digit, and the number in decimal without leading zeros |
| Disk.KnownNames | agent/internal/disk/disk.go:86-91 | the names of /dev/sda and /dev/nvme0n1 |
| Disk.DeviceNamesDecode | agent/internal/disk/disk.go:92-100 | two device names are equal exactly when number and disk agree, up to a disk ending in a digit and the same name plus p |
| Disk.DevicesDistinct | agent/internal/disk/disk.go:92-100 | on one disk different numbers have different devices |
| Disk.DiscoverPartitions | agent/internal/disk/disk.go:104-114 | returns the devices of exactly the existing numbers among 1..128, in order |
| Disk.NumbersSound | agent/internal/disk/disk.go:104-114 | exactly the existing numbers, each once, increasing |
| Disk.PartNumberAgreesIff | agent/internal/disk/disk.go:104-114 | the device at a position carries that partition number exactly when no number up to there is missing, and a larger one otherwise |
| Disk.PartNumbersAgreeIffGapFree | agent/internal/disk/disk.go:104-114 | position and partition number agree everywhere exactly when the numbering has no gap |
| Disk.GapFreeIffNoneMissing | agent/internal/disk/disk.go:104-114 | there is no gap exactly when the first numbers, as many as exist, all exist |
| Lsblk.UnitsArePowers | agent/internal/disk/disk.go:123-129 | K, M, G, T and P are 1024 to the first up to the fifth, and there is no other unit |
| Lsblk.SizeIsFloor | agent/internal/disk/disk.go:118-137 | a decimal size with a unit is the floor of the exact product |
| Lsblk.SizeFits | agent/internal/disk/disk.go:123-137 | below 8192 units, up to P, it fits 64 bits |
| Lsblk.CountIsItself | agent/internal/disk/disk.go:138-140 | a plain count of bytes is itself, cut off at the limit of 64 bits |
| Lsblk.SizeMonotone | agent/internal/disk/disk.go:118-141 | of two sizes in any units or plain bytes, with any number of decimals, the one that denotes more is parsed to at least as much, unless a decimal beyond 64 bits meets a count that was cut off |
| Lsblk.List | agent/internal/disk/disk.go:31-62 | exactly the disk rows of non-zero size, and an error when there are none |
| Lsblk.ListedRows | agent/internal/disk/disk.go:42-57 | of the rows lsblk prints, in any column layout, exactly those of type disk with a size are listed, in order, with path and size |
| Lsblk.LexLessIff | agent/internal/disk/disk.go:80 | the comparison of paths is dictionary order |
| Lsblk.BeforeIsTotalOrder | agent/internal/disk/disk.go:76-81 | the comparator is a strict total order |
| Lsblk.Sort | agent/internal/disk/disk.go:76-81 | the disks in order, none lost or added |
| Lsblk.Primary | agent/internal/disk/disk.go:70-84 | the path of a listed disk than which none is larger, and of those as large none has a path that comes before in dictionary order |
| Lsblk.PrimaryIsOrderIndependent | agent/internal/disk/disk.go:64-84 | listings with the same lines, in any order or repetition, have the same primary disk |
| Decimal.ParseFloatPlain | agent/internal/disk/disk.go:132 | digits, a point and digits parse to the number they denote |
| Decimal.ExponentShifts | agent/internal/disk/disk.go:132 | an exponent shifts the number, and the digits behind the point shift it back |
| Decimal.TruncatesTowardZero | agent/internal/disk/disk.go:136 | conversion to an integer cuts off toward zero |
| StatusLine.ScanNumber | agent/internal/imaging/imaging.go:131-135 | the scan stops at the first character that is neither digit nor point |
| StatusLine.ParseSpeedBpm | agent/internal/imaging/imaging.go:124-155 | the loop computes the specified speed of every string |
| StatusLine.NoSpeed | agent/internal/imaging/imaging.go:126-129 | a text without a number reads as no speed |
| StatusLine.PrintReadRoundTrip | buildroot/package/partclone/partclone-0.3.47.patch:48-57 | the printed line reads back as the floors of the percent and of the speed times the unit's multiplier, whatever lines precede it |
| StatusLine.PrintedLine | buildroot/package/partclone/partclone-0.3.47.patch:48-57 | the line field by field, as its format string has it |
| StatusLine.PrintedNumbers | buildroot/package/partclone/partclone-0.3.47.patch:48 | two decimals, padded with blanks to six characters |
| StatusLine.TornReadIsHarmless | agent/internal/imaging/imaging.go:98-122 | every prefix of the printed line reads as nothing or as the true values |
| StatusLine.KnownUnit | agent/internal/imaging/imaging.go:140-153 | KB, MB, GB and TB per minute mean 8 times 10 to the 3, 6, 9 and 12 bits |
| StatusLine.KnownUnitIsExact | agent/internal/imaging/imaging.go:140-154 | in these units nothing is lost to the floor: the reading is exactly the speed in bits |
| StatusLine.SpeedReadsRightIff | agent/internal/imaging/imaging.go:140-154 | of a unit that stands for so many bytes a minute the reading is the bits a minute exactly when the unit is one of the four names, or they come to less than one bit; any other unit is taken for bits |
| StatusLine.BytesReadAsBits | agent/internal/imaging/imaging.go:151-153 | a line in plain bytes a minute reads as that many bits |
| StatusLine.WrongLine | agent/internal/imaging/imaging.go:151-153 | a printed line of 500 bytes a minute that reads as 500 bits, not 4000 |
| StatusLine.FilesizeConv | buildroot/package/partclone/partclone-0.3.47.patch:21-30 | the scaled size and its power of 1024 multiply to the size, and lie in the unit's range |
| StatusLine.IntegersFit | buildroot/package/partclone/partclone-0.3.47.patch:34-44 | no product of 64-bit integers leaves the table of units: its unit is EiB at most |
| StatusLine.UnitsSufficeIff | buildroot/package/partclone/partclone-0.3.47.patch:23-28 | for any size, the unit index stays in its table exactly up to 1024 to the ninth |
| Parted.LastPartitionNumber | agent/internal/partition/partition.go:267-288 | the largest positive number in front of a colon on any line, an error when there is none |
| Parted.ScannedNumber | agent/internal/partition/partition.go:279-280 | in front of a colon: blanks and digits, whatever follows them, if they fit an int |
| Parted.ScannedSign | agent/internal/partition/partition.go:279-280 | the same with a sign in front of the digits |
| Parted.BehindColon | agent/internal/partition/partition.go:275-278 | a line without a colon shows no number, and nothing behind the first colon is looked at |
| Parted.LastOfListing | agent/internal/partition/partition.go:272-287 | for any header and records in any order that is the largest record number, and an error exactly for an empty list |
| Parted.PartedHeader | agent/internal/partition/partition.go:273-282 | parted's two header lines show no number |
| Cmdline.ParseString | agent/internal/cmdline/cmdline.go:35-51 | the loop is a left fold of assignments over the white-space separated tokens |
| Cmdline.IsTrueIff | agent/internal/cmdline/cmdline.go:46-47 | debugging is on for 1 and for true in any case, and off otherwise |
| Cmdline.LastAssignmentWins | agent/internal/cmdline/cmdline.go:37-49 | each parameter is the last value of its key, everything after the first equals sign, and no other token matters |
| Cmdline.LayoutDoesNotMatter | agent/internal/cmdline/cmdline.go:37 | the tokens are the same for every layout of white space |
| Cmdline.PrintParseRoundTrip | agent/internal/cmdline/cmdline.go:13-51 | white-space-free parameters survive being printed and parsed |
| Client.Post | agent/internal/api/client.go:214-234 | at most five calls, success exactly when the last call succeeded, and exactly 2^calls - 2 seconds waited, 30 at most |
| Client.SucceedsIffOneOfFive | agent/internal/api/client.go:214-234 | uncancelled, success exactly when one of five attempts would succeed |
| Client.GivesUpAfterFive | agent/internal/api/client.go:214-234 | a call never answered is made five times, over 30 seconds of waiting |
| Client.RunIsUnique | agent/internal/api/client.go:214-234 | replies and cancellations determine the result and the number of calls |
| Resize.ShrinkableCanGrow | agent/internal/imaging/imaging.go:177-223 | CanShrink names exactly the filesystems Shrink has a branch for, and Expand uses the same tool for each |
| Resize.ToolByName | agent/internal/imaging/imaging.go:177-223 | the branch taken for each name, in any case of its letters |
| Resize.ShrunkIff | agent/internal/imaging/imaging.go:191-202 | a filesystem is shrunk exactly when it has a tool and every command of that tool works |
| Machine.Server.Complete | agent/internal/api/client.go:152-155 | one report, posted one to five times with the same flag; it succeeds exactly when the last request does |
| Machine.Server.ReportFail | agent/internal/actions/actions.go:358-362 | one report of a failure, its own error ignored |
| Machine.Server.SetImageMeta | agent/internal/api/client.go:145-150 | the metadata is stored when the call succeeds; the answer of one that was stored may be lost |
| Machine.Server.Upload | agent/internal/api/client.go:188-208 | a byte slice is stored whole when its upload succeeds, and a prefix of it otherwise |
| Deploy.Attempt | agent/internal/actions/actions.go:119-189 | success, device content and calls of one attempt, for every delivery and tool outcome |
| Deploy.CarryOutSentinel | agent/internal/actions/actions.go:143-155 | a swap sentinel recreates the swap with its UUID or fails with mkswap; any other is accepted with no call |
| Deploy.CarryOutRestore | agent/internal/actions/actions.go:158-188 | restore, dirty bit and expansion in order; a broken stream or failed restore does neither of the last two |
| Deploy.DeployPart | agent/internal/actions/actions.go:117-193 | partErr is nil exactly when the last attempt made succeeded, which is exactly when one of three attempts would; no other device is touched |
| Deploy.ReadTable | agent/internal/actions/actions.go:91-95 | the table bytes, and an error exactly when the body did not end cleanly |
| Deploy.ExpandLast | agent/internal/partition/partition.go:95-110 | the last partition listed takes the rest of the disk, or nothing changes |
| Deploy.SetUp | agent/internal/actions/actions.go:75-111 | before the parts: success exactly when disk, table download and table restore succeed, any failure reported; boot code, table and partition sizes in every case |
| Deploy.DeployParts | agent/internal/actions/actions.go:113-194 | success exactly when every part succeeds; otherwise it stops at the first that fails and reports it |
| Deploy.Deploy | agent/internal/actions/actions.go:73-200 | every way out makes exactly one report; success exactly when table and all parts succeeded; boot code, table and partition sizes in every case; exactly the devices of the parts begun are touched; an error only when a success could not be reported |
| Deploy.PartsAreTakenInOrder | agent/internal/actions/actions.go:113-194 | parts are never interleaved, every download starts at byte 0, and a part is downloaded once per try and three times at most |
| Deploy.LaterPartsUntouched | agent/internal/actions/actions.go:190-193 | after a failure no later part is downloaded or written |
| Deploy.SilentSkipIff | agent/internal/actions/actions.go:134-155 | a part counts as done without a write exactly when its whole body starts with a brace and does not decode to swap |
| Deploy.FailedTryLeaves | agent/internal/actions/actions.go:119-166 | a failed restore or mkswap leaves what the tool left; no response, or a sentinel cut short, leaves the device alone |
| Deploy.CallsAfterRestore | agent/internal/actions/actions.go:158-188 | a restore that works is followed by clearing the dirty bit exactly when blkid then finds ntfs, and by an expansion exactly when one is due |
| Deploy.CallsAfterSentinel | agent/internal/actions/actions.go:143-155 | a sentinel that arrives whole takes a mkswap with its UUID and nothing else, or nothing if it is no swap |
| Deploy.GrowsByName | agent/internal/imaging/imaging.go:207-223 | which filesystems an expansion makes as large as their partition, by what blkid calls them, and that others keep their size |
| Deploy.EntriesKept | agent/internal/partition/partition.go:95-110 | partition sizes change at one number at most, and not at all when parted fails, lists nothing or cannot resize |
| Deploy.ExpandedFillsPartition | agent/internal/actions/actions.go:179-186 | after a resizable deploy a filesystem that is not fixed-size is as large as its partition where a tool for it exists and works, and as captured otherwise |
| Deploy.LargestNumberTakesRest | agent/internal/partition/partition.go:92-110 | with parted's own listing it is the partition of the largest number that takes the rest of the disk, and it alone |
| Capture.Prepare | agent/internal/actions/actions.go:252-272 | a part is marked fixed-size exactly when the capture is resizable and Shrink did not return true and nil |
| Capture.Stream | agent/internal/actions/actions.go:283-297 | what the server holds after a stream that got through is the clone's output, and a prefix of it after one that did not |
| Capture.FixedNumbersExact | agent/internal/actions/actions.go:226-272 | fixedSizePartitions is strictly increasing, within the parts, without swap, and exactly the others that were not shrunk |
| Capture.SaveSentinel | agent/internal/actions/actions.go:240-250 | the sentinel is stored when its upload succeeds, a prefix of it otherwise, and the failure is reported |
| Capture.CapturePart | agent/internal/actions/actions.go:228-299 | when a part gets through, and what it leaves on source and server in every case; every way to fail is reported; a volume that is encrypted and that blkid calls ntfs aborts before anything is touched |
| Capture.EncryptedIsCapturedIff | agent/internal/actions/actions.go:233-238 | a part on which nothing else fails is captured exactly when it is not encrypted or blkid does not call it ntfs |
| Capture.FailureIsNotCaptured | agent/internal/actions/actions.go:242-297 | a part whose upload or clone fails is not captured |
| Capture.PreparedByName | agent/internal/actions/actions.go:252-272 | what is done to a partition before it is cloned, by what blkid calls it |
| Capture.CaptureParts | agent/internal/actions/actions.go:225-299 | success exactly when every part gets through, and then every part is stored under its position; otherwise it stops at the first that fails |
| Capture.SaveTable | agent/internal/actions/actions.go:215-222 | the table reaches the server byte for byte exactly when its backup and its upload succeed; either failure is reported |
| Capture.Capture | agent/internal/actions/actions.go:206-321 | every way out makes exactly one report; success exactly when table and all partitions got through; metadata posted for a success only; no volume beyond the parts begun is touched; an error only when a success could not be reported |
| Capture.SourceStaysShrunk | agent/internal/actions/actions.go:259-267 | a filesystem shrunk for its capture is still that small at the end of the run, successful or not |
| Capture.SourceUnchangedIff | agent/internal/actions/actions.go:252-272 | where cleaning and failed shrinks change nothing, a filesystem is left as it was exactly when it was not shrunk |
| RoundTrip.PartArrives | agent/internal/actions/actions.go:73-321 | whatever metadata the deploy is sent, every captured part it counts is on the target, expanded exactly when the metadata says so, and a part it does not count leaves the target as it was |
| RoundTrip.PartIsBackIff | agent/internal/actions/actions.go:301-320 | a captured part is on the target exactly when the metadata the deploy was sent counts it |
| RoundTrip.AllBackIff | agent/internal/actions/actions.go:301-320 | all captured parts are on the target exactly when that metadata counts no fewer |
| RoundTrip.DeviceRoundTrip | agent/internal/actions/actions.go:73-321 | with the capture's metadata, target part n holds what the n-th discovered source partition held, or a swap with its UUID, and was expanded exactly when the capture had shrunk it |
| RoundTrip.ShrunkFillsPartition | agent/internal/actions/actions.go:179-186 | and a filesystem shrunk for its capture is then as large as its target partition, where blkid still knows it and the tool works |
| RoundTrip.EndToEnd | agent/internal/actions/actions.go:73-321 | without gaps in the numbering, partition n of the target is partition n of the source for every n, and was expanded exactly when it had been shrunk |
| RoundTrip.OriginalComesBack | agent/internal/actions/actions.go:242-272 | where blkid reads right and preparing changes only sizes, what comes back has the kind and content the partition had before its capture, swap UUID included, and its size too unless it was shrunk or may grow |
| RoundTrip.EndToEndFromOriginal | agent/internal/actions/actions.go:73-321 | then, without gaps, partition n of the target holds what partition n of the source held before the capture |
| RoundTrip.SourceOfPart | agent/internal/actions/actions.go:228-229 | target part n comes from source partition m, at least n, and equal to it exactly when no number up to there is missing |
| RoundTrip.ComesBackInPlaceIff | agent/internal/actions/actions.go:113-114 | of partitions that can be told apart, partition n of the target holds the data of partition n of the source exactly when no number up to n is missing |
| RoundTrip.AllInPlaceIff | agent/internal/actions/actions.go:73-321 | the whole disk comes back in place exactly when its numbering has no gap |
| RoundTrip.FixedUnlessShrunk | agent/internal/actions/actions.go:181-186 | with the capture's metadata Deploy is to expand a part exactly when Capture shrank it |
| RoundTrip.RunExpands | agent/internal/actions/actions.go:181-186 | a run expands exactly the parts whose last try restored an image and that are not fixed-size |
| RoundTrip.CapturedIsDeployable | agent/internal/actions/actions.go:73-200 | every image captured with success can be deployed: when nothing fails, table and parts all succeed |
| RoundTrip.DeployCaptured | agent/internal/actions/actions.go:73-200 | a deploy of a captured image with any metadata: if it reports success the target has the source's table and every part the metadata counts; and it succeeds when nothing fails |
| RoundTrip.CaptureThenDeploy | agent/internal/actions/actions.go:73-321 | the two actions one after the other, on one computer or two, under every pattern of failures: when the capture succeeds, which metadata the deploy then goes by, and that two reported successes make a completed trip with the source's table |
| RoundTrip.WhatComesBack | agent/internal/actions/actions.go:73-321 | what a completed trip means for each captured part, under any metadata and under the capture's own |
| Examples.CaptureAndDeploy | agent/internal/actions/actions.go:73-321 | a capture and a deploy of a disk with the partitions 1 and 3 in which every tool and transfer works; both report success |
| Examples.PartitionMoves | agent/internal/actions/actions.go:228-229 | after it target partition 2 holds what source partition 3 holds, neither 2 nor 3 is in place, and a source filesystem of size 40 has size 10 |
| Examples.PartIsLeftOut | agent/internal/actions/actions.go:301-320 | with the metadata lost and an older image's in its place, both actions report success and the second part is not on the target |
| Dispatch.Wipe | agent/internal/actions/actions.go:327-337 | shred is run on the disk found; every way out makes exactly one report, of success exactly when there was a disk and shred worked |
| Dispatch.Dispatch | agent/internal/actions/actions.go:24-39 | each name starts its own action, with its effect and no other: deploy restores table and parts, capture stores them, only wipe shreds; these report exactly once, in one to five requests that say the same, and return an error exactly when a success could not be reported; any other action reports nothing and returns the error of the exec |

## Left out

- External tools (partclone, sgdisk, sfdisk, parted, blkid, mkswap, shred, resize tools): each is an outcome of the environment with an assumed effect or a failure; clearing the NTFS dirty bit is a call without effect on content.
- HTTP, TLS, timeouts and the JSON of plain API requests: success, failure and the server's map of parts are kept.
- Time: sleeps between attempts and ticks of the drain loop are steps; only the waits of the retry loop are counted.
- What partclone prints as its unit of speed: its own source is not part of this model, so the unit is any text.
- Progress reports and their display, and the final progress callback that may come after a clone or restore returns.
- Turning a log record into a log entry, and the console delegate of the log handler.
- Child log handlers beyond one record each: the whole-run theorems are for one handler.
- Binary floating point: `Decimal` is exact, without range errors and without the spellings inf, nan and hexadecimal; int64 conversions of sizes out of range are not modelled.
- Byte strings that are not valid UTF-8 as UUIDs, sfdisk dumps, command lines or status lines; ToLower and ToUpper beyond ASCII where it cannot matter to the names compared.
- sort.Slice: replaced by an insertion sort; `Lsblk.SortedHead` holds for any sorted permutation.
- Registration, inventory, network bring-up and the debug shell, of which only the failing exec is kept.
- What sgdisk's zap and load leave of the boot code in the first sector: both are inputs, and no claim is made of the boot code after a GPT restore.
