/** The capture action: the partition table, then every discovered partition, streamed through the
    clone pipe or replaced by a sentinel. */
module Capture {
  import opened Machine
  import opened Wrappers
  import Client
  import ClonePipe
  import Disk
  import GoText
  import PartitionTable
  import Resize
  import Sentinel

  /** Everything a run depends on that the agent does not decide; by part number. */
  datatype Environment = Environment(
    disk: Option<string>,                                        // disk.Primary
    tableTools: PartitionTable.BackupTools,
    tableUpload: bool,
    tableSent: nat,                                              // how much of it a failed upload sent
    readSize: (nat, nat) -> nat,                                 // an upload's buffer sizes, less one, by part
    exists_: nat -> bool,                                        // which partition devices there are
    blkid: nat -> string,
    bitlocker: nat -> bool,
    uuid: nat -> string,
    sentinelUpload: nat -> bool,
    sentinelSent: nat -> nat,
    cleaned: (nat, Volume) -> Volume,                            // what CleanNTFS leaves
    shrinkStep: (nat, nat) -> bool,                              // the commands of a shrink
    shrunk: (nat, Volume) -> nat,                                // the size a filesystem shrinks to
    botched: (nat, Volume) -> Volume,                            // what a shrink that failed leaves
    pipe: (nat, seq<Byte>) -> seq<ClonePipe.Action>,             // how clone and upload interleave
    meta: Client.Replies,                                        // the requests of SetImageMeta
    metaKept: bool,                                              // whether the server stored one that failed
    report: Client.Replies)                                      // the requests of the final report

  /** Whether the metadata reaches the server; Capture goes on either way. */
  predicate MetaStored(env: Environment) {
    Client.Succeeds(env.meta) || env.metaKept
  }

  /** Every clone pipe runs until it has come to rest, in some interleaving. */
  ghost predicate PipesComplete(env: Environment) {
    forall n, image ::
      var s := ClonePipe.Start(image);
      ClonePipe.IsRun(s, env.pipe(n, image)) && ClonePipe.Final(ClonePipe.After(s, env.pipe(n, image)))
  }

  // ---------------------------------------------------------------- one partition

  predicate IsSwap(env: Environment, n: nat) {
    env.blkid(n) == Sentinel.SWAP
  }

  function ShrinkSteps(env: Environment, n: nat): nat -> bool {
    (k: nat) => env.shrinkStep(n, k)
  }

  function ShrinkOf(env: Environment, n: nat): Resize.ShrinkResult {
    Resize.Shrink(env.blkid(n), ShrinkSteps(env, n))
  }

  /** Shrink returned (true, nil) on this part. */
  predicate WasShrunk(env: Environment, resizable: bool, n: nat) {
    resizable && !IsSwap(env, n) && Resize.CanShrink(env.blkid(n)) && ShrinkOf(env, n).Shrunk?
  }

  /** A part whose filesystem keeps its size in a resizable capture. */
  predicate IsFixed(env: Environment, resizable: bool, n: nat) {
    resizable && !IsSwap(env, n) && !WasShrunk(env, resizable, n)
  }

  /** What the shrink of a part leaves. */
  function AfterShrink(env: Environment, n: nat, v: Volume): Volume {
    match ShrinkOf(env, n)
    case Shrunk => if v.Filesystem? then v.(size := env.shrunk(n, v)) else v
    case ShrinkFailed => env.botched(n, v)
    case Unsupported => v
  }

  /** What the partition holds when it is cloned; it stays like that. */
  function Prepared(env: Environment, resizable: bool, n: nat, v: Volume): Volume {
    if IsSwap(env, n) || !resizable then v
    else AfterShrink(env, n, if env.blkid(n) == "ntfs" then env.cleaned(n, v) else v)
  }

  /** BitLocker, on which Capture gives up before it touches the part. */
  predicate IsLocked(env: Environment, n: nat) {
    env.blkid(n) == "ntfs" && env.bitlocker(n)
  }

  /** What a part that was begun leaves on its partition, whether or not it got through. */
  function AsBegun(env: Environment, resizable: bool, n: nat, v: Volume): Volume {
    if IsLocked(env, n) then v else Prepared(env, resizable, n, v)
  }

  /** The bytes that stand for the partition on the server. */
  function Upload(env: Environment, pc: Partclone, n: nat, v: Volume): seq<Byte> {
    if IsSwap(env, n) then Sentinel.Marshal(Sentinel.PartMeta(Sentinel.SWAP, env.uuid(n)))
    else pc.clone(env.blkid(n), v)
  }

  /** Whether Capture gets past the partition. */
  ghost predicate PartCaptured(env: Environment, pc: Partclone, resizable: bool, n: nat, v: Volume)
    requires PipesComplete(env)
  {
    && !IsLocked(env, n)
    && if IsSwap(env, n) then env.sentinelUpload(n)
       else
         var image := pc.clone(env.blkid(n), Prepared(env, resizable, n, v));
         var end := ClonePipe.After(ClonePipe.Start(image), env.pipe(n, image));
         end.upload == Some(ClonePipe.Ok) && end.writer == ClonePipe.Done(ClonePipe.Ok)
  }

  /** A part on which nothing else fails is captured exactly when it is not encrypted or blkid does not call
      it ntfs: the guard asks about encryption only then. blkid's own name for an encrypted volume,
      BitLocker, is not ntfs. */
  lemma EncryptedIsCapturedIff(env: Environment, pc: Partclone, resizable: bool, n: nat, v: Volume)
    requires PipesComplete(env) && env.sentinelUpload(n)
    requires var image := pc.clone(env.blkid(n), Prepared(env, resizable, n, v));
      var end := ClonePipe.After(ClonePipe.Start(image), env.pipe(n, image));
      end.upload == Some(ClonePipe.Ok) && end.writer == ClonePipe.Done(ClonePipe.Ok)
    ensures PartCaptured(env, pc, resizable, n, v) <==> !(env.bitlocker(n) && env.blkid(n) == "ntfs")
    ensures env.blkid(n) == "BitLocker" ==> PartCaptured(env, pc, resizable, n, v)
  {
  }

  /** And a failure stops it: of the sentinel's upload where blkid calls the part swap, of the clone or its
      upload on every other part. */
  lemma FailureIsNotCaptured(env: Environment, pc: Partclone, resizable: bool, n: nat, v: Volume)
    requires PipesComplete(env)
    ensures env.blkid(n) == "swap" && !env.sentinelUpload(n) ==> !PartCaptured(env, pc, resizable, n, v)
    ensures env.blkid(n) != "swap" && PartCaptured(env, pc, resizable, n, v) ==>
      var image := pc.clone(env.blkid(n), Prepared(env, resizable, n, v));
      var end := ClonePipe.After(ClonePipe.Start(image), env.pipe(n, image));
      end.upload == Some(ClonePipe.Ok) && end.writer == ClonePipe.Done(ClonePipe.Ok) && end.received == image
  {
    var image := pc.clone(env.blkid(n), Prepared(env, resizable, n, v));
    ClonePipe.NoTruncatedImage(image, env.pipe(n, image));
    ClonePipe.AdvancedIffBothSucceeded(image, env.pipe(n, image));
  }

  /** What a capture does to a partition before it clones it, by what blkid calls it: nothing to swap, and
      nothing at all in a capture that is not resizable; ntfs is cleaned; and what Shrink knows is shrunk,
      or left as a failed shrink leaves it. */
  lemma PreparedByName(env: Environment, n: nat, v: Volume)
    ensures Prepared(env, false, n, v) == v
    ensures env.blkid(n) == "swap" ==> Prepared(env, true, n, v) == v
    ensures env.blkid(n) != "swap" ==>
      var fs, clean := env.blkid(n), if env.blkid(n) == "ntfs" then env.cleaned(n, v) else v;
      var known := GoText.Spells(fs, "ntfs") || GoText.Spells(fs, "btrfs") || Resize.IsExt(fs);
      var third := GoText.Spells(fs, "btrfs") ==> env.shrinkStep(n, 2);
      var works := env.shrinkStep(n, 0) && env.shrinkStep(n, 1) && third;
      Prepared(env, true, n, v) ==
        if !known then clean
        else if !works then env.botched(n, clean)
        else if clean.Filesystem? then clean.(size := env.shrunk(n, clean)) else clean
  {
    Resize.ShrunkIff(env.blkid(n), ShrinkSteps(env, n));
    Resize.ToolByName(env.blkid(n));
  }

  /** The shrink decision of a part that is cloned: prepares the volume, and says whether the part is fixed-size. */
  method Prepare(c: Computer, env: Environment, resizable: bool, n: nat, device: string) returns (fixedSize: bool)
    requires !IsSwap(env, n)
    modifies c`volumes
    ensures fixedSize == IsFixed(env, resizable, n)
    ensures At(c.volumes, device) == Prepared(env, resizable, n, At(old(c.volumes), device))
    ensures forall other | other != device :: At(c.volumes, other) == At(old(c.volumes), other)
  {
    fixedSize := false;
    if !resizable {
      return;
    }
    var fs := env.blkid(n);
    if fs == "ntfs" {
      c.volumes := c.volumes[device := env.cleaned(n, At(c.volumes, device))];
    }
    if Resize.CanShrink(fs) {
      Resize.ShrinkableCanGrow(fs);
      var result := ShrinkOf(env, n);
      fixedSize := !result.Shrunk?;
      c.volumes := c.volumes[device := AfterShrink(env, n, At(c.volumes, device))];
    } else {
      fixedSize := true;
    }
  }

  /** Clone into the pipe and upload from it; the server stores what the upload read. A failed upload
      is reported, and so is a failed clone. */
  method Stream(server: Server, env: Environment, n: nat, image: seq<Byte>) returns (ok: bool)
    requires PipesComplete(env)
    modifies server`parts, server`completed, server`posts
    ensures ReportedFailure(old(server.completed), old(server.posts), server.completed, server.posts, env.report, !ok)
    ensures ok <==>
      var end := ClonePipe.After(ClonePipe.Start(image), env.pipe(n, image));
      end.upload == Some(ClonePipe.Ok) && end.writer == ClonePipe.Done(ClonePipe.Ok)
    ensures server.parts.Keys == old(server.parts).Keys + {n}
    ensures forall m | m in server.parts && m != n :: server.parts[m] == old(server.parts)[m]
    ensures server.parts[n] <= image && (ok ==> server.parts[n] == image)
  {
    var run := env.pipe(n, image);
    var start := ClonePipe.Start(image);
    assert ClonePipe.IsRun(start, run) && ClonePipe.Final(ClonePipe.After(start, run));
    ClonePipe.NoTruncatedImage(image, run);
    ClonePipe.AdvancedIffBothSucceeded(image, run);
    var end := ClonePipe.After(start, run);
    server.parts := server.parts[n := end.received];
    ok := end.capturer == ClonePipe.Advanced;
    if end.upload != Some(ClonePipe.Ok) {
      server.ReportFail(env.report);
      return;
    }
    if end.writer != ClonePipe.Done(ClonePipe.Ok) {
      server.ReportFail(env.report);
      return;
    }
  }

  // ---------------------------------------------------------------- the whole action

  /** The fixed-size parts among 1..m, as the part loop collects them. */
  function FixedNumbers(env: Environment, resizable: bool, m: nat): seq<nat> {
    if m == 0 then []
    else FixedNumbers(env, resizable, m - 1) + (if IsFixed(env, resizable, m) then [m] else [])
  }

  /** Strictly increasing, within the parts captured, without swap, and of the others exactly those
      that were not shrunk; none in a capture that is not resizable. */
  lemma {:induction false} FixedNumbersExact(env: Environment, resizable: bool, m: nat)
    ensures Disk.Increasing(FixedNumbers(env, resizable, m))
    ensures forall n :: n in FixedNumbers(env, resizable, m) <==>
      1 <= n <= m && resizable && !IsSwap(env, n) && !WasShrunk(env, resizable, n)
  {
    if m > 0 {
      FixedNumbersExact(env, resizable, m - 1);
      var before := FixedNumbers(env, resizable, m - 1);
      assert forall i | 0 <= i < |before| :: before[i] in before;
    }
  }

  predicate Distinct(devices: seq<string>) {
    forall i, j | 0 <= i < j < |devices| :: devices[i] != devices[j]
  }

  lemma DiscoveredAreDistinct(disk: string, exists_: nat -> bool, max: nat)
    ensures Distinct(Disk.Devices(disk, Disk.Numbers(exists_, max)))
  {
    var numbers := Disk.Numbers(exists_, max);
    Disk.NumbersSound(exists_, max);
    forall i, j | 0 <= i < j < |numbers|
      ensures Disk.Devices(disk, numbers)[i] != Disk.Devices(disk, numbers)[j]
    {
      Disk.DevicesDistinct(disk, numbers[i], numbers[j]);
    }
  }

  /** Partition i has been prepared and is stored under its position. */
  predicate IsDone(env: Environment, pc: Partclone, resizable: bool, devices: seq<string>, i: nat,
                   volumes0: map<string, Volume>, volumes: map<string, Volume>, stored: map<nat, seq<Byte>>)
    requires i < |devices|
  {
    && At(volumes, devices[i]) == Prepared(env, resizable, i + 1, At(volumes0, devices[i]))
    && i + 1 in stored && stored[i + 1] == Upload(env, pc, i + 1, At(volumes, devices[i]))
  }

  ghost predicate OthersKept(devices: seq<string>, volumes0: map<string, Volume>, volumes: map<string, Volume>) {
    forall device | device !in devices :: At(volumes, device) == At(volumes0, device)
  }

  /** Where the first m partitions leave both sides: each done, and no other volume touched. */
  ghost predicate IsAfterParts(env: Environment, pc: Partclone, resizable: bool, devices: seq<string>, m: nat,
                               volumes0: map<string, Volume>, volumes: map<string, Volume>,
                               stored: map<nat, seq<Byte>>)
    requires m <= |devices|
  {
    && (forall i | 0 <= i < m :: IsDone(env, pc, resizable, devices, i, volumes0, volumes, stored))
    && OthersKept(devices[..m], volumes0, volumes)
  }

  /** The upload of a swap partition's sentinel; a failure is reported. */
  method SaveSentinel(server: Server, env: Environment, n: nat, sentinel: seq<Byte>) returns (ok: bool)
    modifies server`parts, server`completed, server`posts
    ensures ReportedFailure(old(server.completed), old(server.posts), server.completed, server.posts, env.report, !ok)
    ensures ok == env.sentinelUpload(n)
    ensures server.parts == old(server.parts)[n := Arrived(sentinel, ok, env.sentinelSent(n))]
  {
    ok := env.sentinelUpload(n);
    server.Upload(n, sentinel, (i: nat) => env.readSize(n, i), ok, env.sentinelSent(n));
    if !ok {
      server.ReportFail(env.report);
    }
  }

  /** One turn of the part loop, which ends a run that it cannot get past. */
  method CapturePart(c: Computer, server: Server, env: Environment, pc: Partclone, resizable: bool, n: nat,
                     device: string)
    returns (ok: bool, fixedSize: bool)
    requires PipesComplete(env)
    modifies c`volumes, server`parts, server`completed, server`posts
    ensures ReportedFailure(old(server.completed), old(server.posts), server.completed, server.posts, env.report, !ok)
    ensures ok <==> PartCaptured(env, pc, resizable, n, At(old(c.volumes), device))
    ensures At(c.volumes, device) == AsBegun(env, resizable, n, At(old(c.volumes), device))
    ensures forall other | other != device :: At(c.volumes, other) == At(old(c.volumes), other)
    ensures forall k | k in old(server.parts) && k != n :: k in server.parts && server.parts[k] == old(server.parts)[k]
    ensures server.parts.Keys == old(server.parts).Keys + if IsLocked(env, n) then {} else {n}
    ensures IsLocked(env, n) && n in server.parts ==> server.parts[n] == old(server.parts)[n]
    ensures !IsLocked(env, n) ==> server.parts[n] <= Upload(env, pc, n, At(c.volumes, device))
    ensures ok ==>
      fixedSize == IsFixed(env, resizable, n) && server.parts[n] == Upload(env, pc, n, At(c.volumes, device))
  {
    var fs := env.blkid(n);
    fixedSize := false;
    if fs == "ntfs" && env.bitlocker(n) {
      server.ReportFail(env.report);
      return false, false;
    }
    if fs == Sentinel.SWAP {
      ok := SaveSentinel(server, env, n, Sentinel.Marshal(Sentinel.PartMeta(Sentinel.SWAP, env.uuid(n))));
      return;
    }
    fixedSize := Prepare(c, env, resizable, n, device);
    ok := Stream(server, env, n, pc.clone(fs, At(c.volumes, device)));
  }

  lemma OneMorePart(env: Environment, pc: Partclone, resizable: bool, devices: seq<string>, m: nat,
                    volumes0: map<string, Volume>, volumes: map<string, Volume>, stored: map<nat, seq<Byte>>,
                    volumes': map<string, Volume>, stored': map<nat, seq<Byte>>)
    requires m < |devices| && Distinct(devices)
    requires IsAfterParts(env, pc, resizable, devices, m, volumes0, volumes, stored)
    requires forall other | other != devices[m] :: At(volumes', other) == At(volumes, other)
    requires forall k | k in stored && k != m + 1 :: k in stored' && stored'[k] == stored[k]
    requires At(volumes', devices[m]) == Prepared(env, resizable, m + 1, At(volumes, devices[m]))
    requires m + 1 in stored' && stored'[m + 1] == Upload(env, pc, m + 1, At(volumes', devices[m]))
    ensures IsAfterParts(env, pc, resizable, devices, m + 1, volumes0, volumes', stored')
  {
    assert devices[..m + 1] == devices[..m] + [devices[m]];
    assert devices[m] !in devices[..m];
    forall i | 0 <= i < m + 1 ensures IsDone(env, pc, resizable, devices, i, volumes0, volumes', stored') {
      if i < m {
        assert devices[i] != devices[m] && IsDone(env, pc, resizable, devices, i, volumes0, volumes, stored);
      }
    }
    forall device | device !in devices[..m + 1] ensures At(volumes', device) == At(volumes0, device) {
      assert device !in devices[..m] && device != devices[m];
    }
  }

  /** Where a run leaves both sides: all parts done, or those before the one that failed, which is as
      it was or prepared; and no volume beyond the parts begun is touched. */
  ghost predicate IsAfterRun(env: Environment, pc: Partclone, resizable: bool, devices: seq<string>, success: bool,
                             reached: nat, volumes0: map<string, Volume>, volumes: map<string, Volume>,
                             stored: map<nat, seq<Byte>>)
    requires reached <= |devices|
  {
    if success then IsAfterParts(env, pc, resizable, devices, reached, volumes0, volumes, stored)
    else
      && reached >= 1
      && (forall i | 0 <= i < reached - 1 :: IsDone(env, pc, resizable, devices, i, volumes0, volumes, stored))
      && OthersKept(devices[..reached], volumes0, volumes)
      && var device := devices[reached - 1];
         At(volumes, device) == AsBegun(env, resizable, reached, At(volumes0, device))
  }

  lemma FailedPart(env: Environment, pc: Partclone, resizable: bool, devices: seq<string>, m: nat,
                   volumes0: map<string, Volume>, volumes: map<string, Volume>, stored: map<nat, seq<Byte>>,
                   volumes': map<string, Volume>, stored': map<nat, seq<Byte>>)
    requires m < |devices| && Distinct(devices)
    requires IsAfterParts(env, pc, resizable, devices, m, volumes0, volumes, stored)
    requires forall other | other != devices[m] :: At(volumes', other) == At(volumes, other)
    requires forall k | k in stored && k != m + 1 :: k in stored' && stored'[k] == stored[k]
    requires At(volumes', devices[m]) == AsBegun(env, resizable, m + 1, At(volumes, devices[m]))
    ensures IsAfterRun(env, pc, resizable, devices, false, m + 1, volumes0, volumes', stored')
  {
    assert devices[..m + 1] == devices[..m] + [devices[m]];
    assert devices[m] !in devices[..m];
    forall i | 0 <= i < m ensures IsDone(env, pc, resizable, devices, i, volumes0, volumes', stored') {
      assert devices[i] != devices[m] && IsDone(env, pc, resizable, devices, i, volumes0, volumes, stored);
    }
    forall device | device !in devices[..m + 1] ensures At(volumes', device) == At(volumes0, device) {
      assert device !in devices[..m] && device != devices[m];
    }
  }

  ghost predicate AllPartsCaptured(env: Environment, pc: Partclone, resizable: bool, devices: seq<string>, m: nat,
                                   volumes0: map<string, Volume>)
    requires PipesComplete(env) && m <= |devices|
  {
    forall i | 0 <= i < m :: PartCaptured(env, pc, resizable, i + 1, At(volumes0, devices[i]))
  }

  /** The partitions in order, until one fails: `reached` is the last one begun. */
  method CaptureParts(c: Computer, server: Server, env: Environment, pc: Partclone, resizable: bool,
                      devices: seq<string>)
    returns (success: bool, fixedSizePartitions: seq<nat>, reached: nat)
    requires PipesComplete(env) && Distinct(devices)
    modifies c`volumes, server`parts, server`completed, server`posts
    ensures ReportedFailure(
      old(server.completed), old(server.posts), server.completed, server.posts, env.report, !success)
    ensures success <==> AllPartsCaptured(env, pc, resizable, devices, |devices|, old(c.volumes))
    ensures success ==> fixedSizePartitions == FixedNumbers(env, resizable, |devices|)
    ensures reached <= |devices| && (success ==> reached == |devices|)
    ensures IsAfterRun(env, pc, resizable, devices, success, reached, old(c.volumes), c.volumes, server.parts)
    ensures 0 in old(server.parts) ==> 0 in server.parts && server.parts[0] == old(server.parts)[0]
  {
    fixedSizePartitions := [];
    for i := 0 to |devices|
      invariant AllPartsCaptured(env, pc, resizable, devices, i, old(c.volumes))
      invariant fixedSizePartitions == FixedNumbers(env, resizable, i)
      invariant IsAfterParts(env, pc, resizable, devices, i, old(c.volumes), c.volumes, server.parts)
      invariant 0 in old(server.parts) ==> 0 in server.parts && server.parts[0] == old(server.parts)[0]
      invariant server.completed == old(server.completed) && server.posts == old(server.posts)
    {
      ghost var volumes, stored := c.volumes, server.parts;
      assert devices[i] !in devices[..i];
      var ok, fixedSize := CapturePart(c, server, env, pc, resizable, i + 1, devices[i]);
      if !ok {
        FailedPart(env, pc, resizable, devices, i, old(c.volumes), volumes, stored, c.volumes, server.parts);
        return false, fixedSizePartitions, i + 1;
      }
      OneMorePart(env, pc, resizable, devices, i, old(c.volumes), volumes, stored, c.volumes, server.parts);
      if fixedSize {
        fixedSizePartitions := fixedSizePartitions + [i + 1];
      }
    }
    assert devices[..|devices|] == devices;
    success, reached := true, |devices|;
  }

  /** The devices a capture of this disk goes through. */
  function DevicesOf(env: Environment): seq<string>
    requires env.disk.Some?
  {
    Disk.Devices(env.disk.value, Disk.Numbers(env.exists_, Disk.MAX_PARTS))
  }

  /** What partition.Backup returns. */
  function BackupOf(env: Environment): Option<seq<Byte>>
    requires PartitionTable.ReadFits(env.tableTools)
  {
    PartitionTable.Backup(env.tableTools)
  }

  predicate SetupSucceeds(env: Environment) {
    env.disk.Some? && PartitionTable.BackupSucceeds(env.tableTools) && env.tableUpload
  }

  /** Every partition has been captured. */
  ghost predicate PartsCaptured(env: Environment, pc: Partclone, resizable: bool, volumes0: map<string, Volume>,
                                volumes: map<string, Volume>, stored: map<nat, seq<Byte>>)
  {
    env.disk.Some?
    && IsAfterParts(env, pc, resizable, DevicesOf(env), |DevicesOf(env)|, volumes0, volumes, stored)
  }

  /** What a capture reported as successful has done. */
  ghost predicate Captured(env: Environment, pc: Partclone, resizable: bool,
                           volumes0: map<string, Volume>, volumes: map<string, Volume>, stored: map<nat, seq<Byte>>) {
    && PartitionTable.ReadFits(env.tableTools)
    && PartitionTable.BackupSucceeds(env.tableTools) && 0 in stored && stored[0] == BackupOf(env).value
    && PartsCaptured(env, pc, resizable, volumes0, volumes, stored)
  }

  /** What a part that was begun holds at the end of the run, whether the run succeeds or not. */
  lemma BegunPart(env: Environment, pc: Partclone, resizable: bool, devices: seq<string>, success: bool, reached: nat,
                  volumes0: map<string, Volume>, volumes: map<string, Volume>, stored: map<nat, seq<Byte>>, i: nat)
    requires reached <= |devices| && i < reached && !IsLocked(env, i + 1)
    requires IsAfterRun(env, pc, resizable, devices, success, reached, volumes0, volumes, stored)
    ensures At(volumes, devices[i]) == Prepared(env, resizable, i + 1, At(volumes0, devices[i]))
  {
    if success || i < reached - 1 {
      assert IsDone(env, pc, resizable, devices, i, volumes0, volumes, stored);
    }
  }

  /** The source pays for it: once a part is begun its filesystem, if shrunk, is still that small at
      the end of the run, whether the run succeeds or not. */
  lemma SourceStaysShrunk(env: Environment, pc: Partclone, resizable: bool, devices: seq<string>, success: bool,
                          reached: nat, volumes0: map<string, Volume>, volumes: map<string, Volume>,
                          stored: map<nat, seq<Byte>>, i: nat)
    requires reached <= |devices| && i < reached && WasShrunk(env, resizable, i + 1) && !IsLocked(env, i + 1)
    requires IsAfterRun(env, pc, resizable, devices, success, reached, volumes0, volumes, stored)
    ensures var before := At(volumes0, devices[i]);
      var clean := if env.blkid(i + 1) == "ntfs" then env.cleaned(i + 1, before) else before;
      clean.Filesystem? ==> At(volumes, devices[i]) == clean.(size := env.shrunk(i + 1, clean))
  {
    BegunPart(env, pc, resizable, devices, success, reached, volumes0, volumes, stored, i);
  }

  /** When a capture leaves its source as it was: on a part begun that holds a filesystem, where
      cleaning finds nothing to remove, a failed shrink has done nothing and one that works makes a
      difference, exactly when the part was not shrunk. */
  lemma SourceUnchangedIff(env: Environment, pc: Partclone, resizable: bool, devices: seq<string>, success: bool,
                           reached: nat, volumes0: map<string, Volume>, volumes: map<string, Volume>,
                           stored: map<nat, seq<Byte>>, i: nat)
    requires reached <= |devices| && i < reached && !IsLocked(env, i + 1)
    requires IsAfterRun(env, pc, resizable, devices, success, reached, volumes0, volumes, stored)
    requires var v := At(volumes0, devices[i]);
      && v.Filesystem? && env.cleaned(i + 1, v) == v && env.botched(i + 1, v) == v && env.shrunk(i + 1, v) != v.size
    ensures At(volumes, devices[i]) == At(volumes0, devices[i]) <==> !WasShrunk(env, resizable, i + 1)
  {
    BegunPart(env, pc, resizable, devices, success, reached, volumes0, volumes, stored, i);
    Resize.ShrinkableCanGrow(env.blkid(i + 1));
  }

  function TypeOf(resizable: bool): string {
    if resizable then RESIZABLE else "fixed"
  }

  /** The metadata of a capture of so many partitions. */
  function MetaOf(env: Environment, resizable: bool, count: nat): (meta: ImageMeta)
    ensures meta.imageType == (if resizable then "resizable" else "fixed") && meta.partCount == count
  {
    ImageMeta(TypeOf(resizable), FixedNumbers(env, resizable, count), count)
  }

  /** The backup of the partition table and its upload through bytesReader; either failure is reported. */
  method SaveTable(server: Server, env: Environment) returns (ok: bool)
    requires PartitionTable.ReadFits(env.tableTools)
    modifies server`parts, server`completed, server`posts
    ensures ReportedFailure(old(server.completed), old(server.posts), server.completed, server.posts, env.report, !ok)
    ensures ok <==> PartitionTable.BackupSucceeds(env.tableTools) && env.tableUpload
    ensures server.parts == TableSaved(env, old(server.parts))
  {
    var table := PartitionTable.Backup(env.tableTools);
    if table.None? {
      server.ReportFail(env.report);
      return false;
    }
    ok := env.tableUpload;
    server.Upload(0, table.value, (i: nat) => env.readSize(0, i), ok, env.tableSent);
    if !ok {
      server.ReportFail(env.report);
    }
  }

  /** What the server then holds: the whole table once the upload has succeeded. */
  function TableSaved(env: Environment, stored: map<nat, seq<Byte>>): (saved: map<nat, seq<Byte>>)
    requires PartitionTable.ReadFits(env.tableTools)
    ensures PartitionTable.BackupSucceeds(env.tableTools) && env.tableUpload ==>
      saved == stored[0 := BackupOf(env).value]
  {
    match BackupOf(env)
    case Some(table) => stored[0 := Arrived(table, env.tableUpload, env.tableSent)]
    case None => stored
  }

  /** The partitions of the disk: how many there are, and CaptureParts on them. */
  method CaptureDisk(c: Computer, server: Server, env: Environment, pc: Partclone, resizable: bool)
    returns (success: bool, fixedSizePartitions: seq<nat>, reached: nat, count: nat)
    requires PipesComplete(env) && env.disk.Some?
    modifies c`volumes, server`parts, server`completed, server`posts
    ensures ReportedFailure(
      old(server.completed), old(server.posts), server.completed, server.posts, env.report, !success)
    ensures count == |DevicesOf(env)|
    ensures success <==> AllPartsCaptured(env, pc, resizable, DevicesOf(env), count, old(c.volumes))
    ensures success ==> fixedSizePartitions == FixedNumbers(env, resizable, count)
    ensures reached <= count && (success ==> reached == count)
    ensures IsAfterRun(env, pc, resizable, DevicesOf(env), success, reached, old(c.volumes), c.volumes, server.parts)
    ensures 0 in old(server.parts) ==> 0 in server.parts && server.parts[0] == old(server.parts)[0]
  {
    var parts := Disk.DiscoverPartitions(env.disk.value, env.exists_);
    DiscoveredAreDistinct(env.disk.value, env.exists_, Disk.MAX_PARTS);
    success, fixedSizePartitions, reached := CaptureParts(c, server, env, pc, resizable, parts);
    count := |parts|;
  }

  /** The capture action. Success is reported exactly when the table and every partition got through,
      whether or not the metadata did; every way out makes one report; metadata is posted for a
      success only; nothing beyond the parts begun is touched; and the error returned is that of the
      report of a success. */
  method Capture(c: Computer, server: Server, env: Environment, pc: Partclone, imageType: string)
    returns (success: bool, reached: nat, err: bool)
    requires PipesComplete(env) && PartitionTable.ReadFits(env.tableTools)
    modifies c`volumes, server`parts, server`meta, server`completed, server`posts
    ensures Reported(old(server.completed), old(server.posts), server.completed, server.posts, env.report, success)
    ensures err <==> success && !Client.Succeeds(env.report)
    ensures success <==>
      && SetupSucceeds(env)
      && AllPartsCaptured(env, pc, imageType == RESIZABLE, DevicesOf(env), |DevicesOf(env)|, old(c.volumes))
    ensures success ==>
      Captured(env, pc, imageType == RESIZABLE, old(c.volumes), c.volumes, server.parts)
    ensures !SetupSucceeds(env) ==> reached == 0 && c.volumes == old(c.volumes)
    ensures !SetupSucceeds(env) ==>
      server.parts == if env.disk.Some? then TableSaved(env, old(server.parts)) else old(server.parts)
    ensures SetupSucceeds(env) ==> reached <= |DevicesOf(env)| && IsAfterRun(
      env, pc, imageType == RESIZABLE, DevicesOf(env), success, reached, old(c.volumes), c.volumes, server.parts)
    ensures server.meta ==
      if success && MetaStored(env) then Some(MetaOf(env, imageType == RESIZABLE, |DevicesOf(env)|))
      else old(server.meta)
  {
    success, reached, err := false, 0, false;
    if env.disk.None? {
      server.ReportFail(env.report);
      return;
    }
    var isResizable := imageType == RESIZABLE;
    var saved := SaveTable(server, env);
    if !saved {
      return;
    }
    var fixedSizePartitions, count;
    success, fixedSizePartitions, reached, count := CaptureDisk(c, server, env, pc, isResizable);
    if !success {
      return;
    }
    var _ := server.SetImageMeta(env.meta, env.metaKept, ImageMeta(TypeOf(isResizable), fixedSizePartitions, count));
    var ok := server.Complete(env.report, true);
    err := !ok;
  }
}
