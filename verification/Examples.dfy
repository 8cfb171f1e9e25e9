/** Two runs of a capture and a deploy in which every tool, every upload and every download works, of a
    disk with the partitions 1 and 3. In one partition 3 comes back as partition 2. In the other only the
    metadata is lost, and partition 3 does not come back at all. Both leave the source shrunk. */
module Examples {
  import opened Machine
  import opened Wrappers
  import Capture
  import Client
  import ClonePipe
  import Deploy
  import Disk
  import GoText
  import PartitionTable
  import Resize
  import RoundTrip
  import Sentinel

  /** A disk, sgdisk's backup of its table, and its two filesystems: their type and what they hold. */
  datatype Source = Source(disk: string, backup: seq<Byte>, fs: string, one: Byte, three: Byte)

  /** A type that can be shrunk, and two different contents, neither of which looks like a sentinel. */
  predicate IsExample(x: Source) {
    && Resize.ShrinkTool(x.fs) == Some(Resize.Ext) && x.fs != Sentinel.SWAP && x.fs != "ntfs"
    && x.one != x.three && x.one != '{' as Byte && x.three != '{' as Byte
  }

  /** Any disk with two different ext4 filesystems. */
  function Ext4(disk: string, backup: seq<Byte>): Source {
    Source(disk, backup, "ext4", 1, 3)
  }

  lemma Ext4IsExample(disk: string, backup: seq<Byte>)
    ensures IsExample(Ext4(disk, backup))
  {
    assert "ext4"[0] != Sentinel.SWAP[0] && "ext4"[0] != "ntfs"[0];
    assert GoText.ToLower("ext4") == "ext4";
  }

  function Device(x: Source, n: nat): string {
    Disk.PartitionDevice(x.disk, n)
  }

  function Files(x: Source, content: Byte, size: nat): Volume {
    Filesystem(x.fs, [content], size)
  }

  function Before(x: Source): map<string, Volume> {
    map[Device(x, 1) := Files(x, x.one, 40), Device(x, 3) := Files(x, x.three, 40)]
  }

  /** A clone stream is the content. */
  function Tool(x: Source): Partclone {
    Partclone((fs: string, v: Volume) => if v.Filesystem? then v.content else [], raw => Filesystem(x.fs, raw, 10))
  }

  function Answering(ok: bool): Client.Replies {
    Client.Replies(_ => ok, _ => false)
  }

  /** Partitions 1 and 3 exist, and every filesystem shrinks from 40 to 10. Nothing fails but perhaps the
      metadata. */
  function Capturing(x: Source, posted: bool): Capture.Environment {
    Capture.Environment(
      Some(x.disk), PartitionTable.BackupTools(None, Some(x.backup), None, None), true, 0, (n, i) => 0,
      n => n == 1 || n == 3, n => x.fs, n => false, n => "", n => true, n => 0,
      (n, v) => v, (n, k) => true, (n, v) => 10, (n, v) => v, (n, image) => ClonePipe.SmoothRun(image),
      Answering(posted), false, Answering(true))
  }

  /** Every tool works, on the same disk. */
  function Deploying(x: Source): Deploy.Environment {
    Deploy.Environment(
      Some(x.disk), Deploy.NoResponse,
      PartitionTable.RestoreTools(true, [], true, true, true, [], true, true, [], true),
      (p, k) => Deploy.NoResponse, (p, k) => true, (p, k) => "", (p, k) => true, (p, k) => Garbage, (p, k) => x.fs,
      (p, k) => true, map[], None, false, 0, Answering(true))
  }

  /** Every download arrives at once. */
  function Network(): (nat, nat, seq<Byte>) -> Deploy.Delivery {
    (p, k, b) => Deploy.Response([b], true, false)
  }

  lemma NetworkWorks(x: Source)
    ensures RoundTrip.IsFaithful(Network()) && RoundTrip.NothingFails(Deploying(x), Network())
  {
    forall p: nat, k: nat, b: seq<Byte> ensures Deploy.Body(Network()(p, k, b)) == b {
      assert Flatten([b]) == b + Flatten([]);
    }
  }

  lemma DevicesDiffer(x: Source)
    ensures Device(x, 1) != Device(x, 2) && Device(x, 1) != Device(x, 3) && Device(x, 2) != Device(x, 3)
  {
    Disk.DevicesDistinct(x.disk, 1, 2);
    Disk.DevicesDistinct(x.disk, 1, 3);
    Disk.DevicesDistinct(x.disk, 2, 3);
  }

  // ---------------------------------------------------------------- the capture succeeds

  lemma {:induction false} OneAndThree(exists_: nat -> bool, max: nat)
    requires max >= 3 && forall n :: exists_(n) <==> n == 1 || n == 3
    ensures Disk.Numbers(exists_, max) == [1, 3]
  {
    Disk.OneMoreNumber(exists_, max);
    if max == 3 {
      Disk.OneMoreNumber(exists_, 2);
      Disk.OneMoreNumber(exists_, 1);
    } else {
      OneAndThree(exists_, max - 1);
    }
  }

  lemma Devices(x: Source, posted: bool)
    ensures Capture.DevicesOf(Capturing(x, posted)) == [Device(x, 1), Device(x, 3)]
  {
    OneAndThree(Capturing(x, posted).exists_, Disk.MAX_PARTS);
  }

  lemma PipesRun(x: Source, posted: bool)
    ensures Capture.PipesComplete(Capturing(x, posted))
  {
    forall image ensures ClonePipe.IsRun(ClonePipe.Start(image), ClonePipe.SmoothRun(image))
      && ClonePipe.Final(ClonePipe.After(ClonePipe.Start(image), ClonePipe.SmoothRun(image)))
    {
      ClonePipe.CanSucceed(image);
    }
  }

  lemma IsShrunk(x: Source, posted: bool, n: nat)
    requires IsExample(x)
    ensures !Capture.IsSwap(Capturing(x, posted), n) && !Capture.IsLocked(Capturing(x, posted), n)
    ensures Capture.WasShrunk(Capturing(x, posted), true, n)
  {
    Resize.ShrinkableCanGrow(x.fs);
  }

  lemma Prepares(x: Source, posted: bool, n: nat, content: Byte)
    requires IsExample(x)
    ensures Capture.Prepared(Capturing(x, posted), true, n, Files(x, content, 40)) == Files(x, content, 10)
  {
    IsShrunk(x, posted, n);
  }

  lemma PartGetsThrough(x: Source, posted: bool, n: nat, v: Volume)
    requires IsExample(x) && Capture.PipesComplete(Capturing(x, posted))
    ensures Capture.PartCaptured(Capturing(x, posted), Tool(x), true, n, v)
  {
    IsShrunk(x, posted, n);
    ClonePipe.CanSucceed(Tool(x).clone(x.fs, Capture.Prepared(Capturing(x, posted), true, n, v)));
  }

  lemma CaptureGetsThrough(x: Source, posted: bool)
    requires IsExample(x) && Capture.PipesComplete(Capturing(x, posted))
    ensures RoundTrip.GetsThrough(Capturing(x, posted), Tool(x), true, Before(x))
  {
    var devices := Capture.DevicesOf(Capturing(x, posted));
    forall i | 0 <= i < |devices|
      ensures Capture.PartCaptured(Capturing(x, posted), Tool(x), true, i + 1, At(Before(x), devices[i]))
    {
      PartGetsThrough(x, posted, i + 1, At(Before(x), devices[i]));
    }
  }

  lemma ToolIsReliable(x: Source, posted: bool)
    requires IsExample(x)
    ensures RoundTrip.WillBeReliable(Capturing(x, posted), Tool(x), true, Before(x))
  {
    DevicesDiffer(x);
    Devices(x, posted);
    Prepares(x, posted, 1, x.one);
    Prepares(x, posted, 2, x.three);
  }

  // ---------------------------------------------------------------- the runs

  /** The metadata of an older image, of one partition. */
  function Stale(): ImageMeta {
    ImageMeta("fixed", [], 1)
  }

  function MetaSent(x: Source, posted: bool): ImageMeta {
    if posted then Capture.MetaOf(Capturing(x, posted), true, 2) else Stale()
  }

  lemma MetaReachesServer(x: Source, posted: bool)
    ensures Capture.MetaStored(Capturing(x, posted)) == posted
  {
  }

  /** Everything a successful run needs of its environment. */
  lemma Ready(x: Source, posted: bool)
    requires IsExample(x)
    ensures Capture.PipesComplete(Capturing(x, posted))
    ensures RoundTrip.WillBeReliable(Capturing(x, posted), Tool(x), true, Before(x))
    ensures RoundTrip.GetsThrough(Capturing(x, posted), Tool(x), true, Before(x))
    ensures RoundTrip.IsFaithful(Network()) && RoundTrip.NothingFails(Deploying(x), Network())
    ensures Capture.MetaStored(Capturing(x, posted)) == posted && |Capture.DevicesOf(Capturing(x, posted))| == 2
  {
    PipesRun(x, posted);
    CaptureGetsThrough(x, posted);
    ToolIsReliable(x, posted);
    NetworkWorks(x);
    Devices(x, posted);
    MetaReachesServer(x, posted);
  }

  method Start(x: Source) returns (source: Computer, server: Server, target: Computer)
    ensures fresh(source) && fresh(server) && fresh(target) && fresh(target.area) && source != target
    ensures source.volumes == Before(x) && target.volumes == map[]
    ensures server.completed == [] && server.meta == Some(Stale())
  {
    var area := new PartitionTable.TableArea([], PartitionTable.Zapped);
    source := new Computer(Before(x), area);
    target := new Computer(map[], area);
    server := new Server();
    server.meta := Some(Stale());
  }

  /** What such a run started from. */
  ghost predicate IsRun(x: Source, posted: bool, t: RoundTrip.Trip) {
    && t.cenv == Capturing(x, posted) && t.resizable && t.denv.disk == Some(x.disk)
    && t.source0 == Before(x) && t.target0 == map[]
    && t.meta == MetaSent(x, posted) && RoundTrip.Completed(t)
  }

  /** A resizable capture, and a deploy of it to an empty computer, by a server that had an older image.
      Both succeed. */
  method CaptureAndDeploy(x: Source, posted: bool)
    returns (source: Computer, server: Server, target: Computer, ghost t: RoundTrip.Trip)
    requires IsExample(x)
    ensures server.completed == [true, true]
    ensures IsRun(x, posted, t) && t.source == source.volumes && t.target == target.volumes
  {
    source, server, target := Start(x);
    Ready(x, posted);
    var captured, deployed;
    captured, deployed, t := RoundTrip.CaptureThenDeploy(source, server, target, Capturing(x, posted), Deploying(x),
                                                         Network(), Tool(x), RESIZABLE);
  }

  lemma PartsOfRun(x: Source, posted: bool, t: RoundTrip.Trip)
    requires IsExample(x) && IsRun(x, posted, t)
    ensures RoundTrip.Count(t) == 2
    ensures RoundTrip.PartOf(t, 1) == RoundTrip.SourceAt(t, 1) == Files(x, x.one, 10)
    ensures RoundTrip.PartOf(t, 2) == RoundTrip.SourceAt(t, 3) == Files(x, x.three, 10)
  {
    Devices(x, posted);
    DevicesDiffer(x);
    RoundTrip.PartIsPrepared(t, 1);
    RoundTrip.PartIsPrepared(t, 2);
    Prepares(x, posted, 1, x.one);
    Prepares(x, posted, 2, x.three);
  }

  lemma NoSecondPartition(x: Source, posted: bool, t: RoundTrip.Trip)
    requires IsExample(x) && IsRun(x, posted, t)
    ensures RoundTrip.SourceAt(t, 2) == Garbage
  {
    Devices(x, posted);
    DevicesDiffer(x);
    var devices := Capture.DevicesOf(t.cenv);
    assert devices[..|devices|] == devices;
    assert Device(x, 2) !in devices;
  }

  /** Which parts arrive: those the metadata counts. */
  lemma PartArrives(x: Source, posted: bool, t: RoundTrip.Trip, n: nat, content: Byte)
    requires IsExample(x) && IsRun(x, posted, t) && 1 <= n <= RoundTrip.Count(t)
    requires RoundTrip.PartOf(t, n) == Files(x, content, 10)
    ensures n <= t.meta.partCount ==> RoundTrip.SameData(RoundTrip.TargetAt(t, n), Files(x, content, 10))
    ensures n > t.meta.partCount ==> RoundTrip.TargetAt(t, n) == Garbage
  {
    IsShrunk(x, posted, n);
    RoundTrip.PartArrives(t, n);
  }

  lemma NoThirdPart(x: Source, posted: bool, t: RoundTrip.Trip)
    requires IsRun(x, posted, t)
    ensures t.meta.partCount == (if posted then 2 else 1) && RoundTrip.TargetAt(t, 3) == Garbage
  {
    Deploy.LaterPartsUntouched(t.denv, t.pc, t.meta, t.denv.disk.value, t.meta.partCount, t.target0, t.calls0,
                               t.target, t.calls, 3);
  }

  /** Both actions report success. What was partition 3 is now partition 2, neither number holds what it
      held, and the source, which had filesystems of size 40, is left with one of 10. */
  method PartitionMoves(disk: string, backup: seq<Byte>)
    returns (source: Computer, server: Server, target: Computer, ghost t: RoundTrip.Trip)
    ensures server.completed == [true, true]
    ensures IsRun(Ext4(disk, backup), true, t)
    ensures t.source == source.volumes && t.target == target.volumes
    ensures RoundTrip.SameData(RoundTrip.TargetAt(t, 2), RoundTrip.SourceAt(t, 3))
    ensures RoundTrip.InPlace(t, 1) && !RoundTrip.InPlace(t, 2) && !RoundTrip.InPlace(t, 3)
    ensures At(t.source0, Disk.PartitionDevice(disk, 1)) == Filesystem("ext4", [1], 40)
    ensures At(source.volumes, Disk.PartitionDevice(disk, 1)) == Filesystem("ext4", [1], 10)
  {
    var x := Ext4(disk, backup);
    Ext4IsExample(disk, backup);
    source, server, target, t := CaptureAndDeploy(x, true);
    MovedBy(x, t);
  }

  lemma MovedBy(x: Source, t: RoundTrip.Trip)
    requires IsExample(x) && IsRun(x, true, t)
    ensures RoundTrip.SameData(RoundTrip.TargetAt(t, 2), RoundTrip.SourceAt(t, 3))
    ensures RoundTrip.InPlace(t, 1) && !RoundTrip.InPlace(t, 2) && !RoundTrip.InPlace(t, 3)
    ensures At(Before(x), Device(x, 1)) == Files(x, x.one, 40) && At(t.source, Device(x, 1)) == Files(x, x.one, 10)
  {
    DevicesDiffer(x);
    PartsOfRun(x, true, t);
    NoSecondPartition(x, true, t);
    NoThirdPart(x, true, t);
    PartArrives(x, true, t, 1, x.one);
    PartArrives(x, true, t, 2, x.three);
  }

  /** Both actions report success, but the metadata of the capture was lost. The deploy goes by that of the
      older image, and the second part captured is not on the target. */
  method PartIsLeftOut(disk: string, backup: seq<Byte>)
    returns (source: Computer, server: Server, target: Computer, ghost t: RoundTrip.Trip)
    ensures server.completed == [true, true]
    ensures IsRun(Ext4(disk, backup), false, t) && RoundTrip.Count(t) == 2
    ensures t.source == source.volumes && t.target == target.volumes
    ensures RoundTrip.IsBack(t, 1) && !RoundTrip.IsBack(t, 2) && RoundTrip.TargetAt(t, 2) == Garbage
  {
    var x := Ext4(disk, backup);
    Ext4IsExample(disk, backup);
    source, server, target, t := CaptureAndDeploy(x, false);
    LeftOutBy(x, t);
  }

  lemma LeftOutBy(x: Source, t: RoundTrip.Trip)
    requires IsExample(x) && IsRun(x, false, t)
    ensures RoundTrip.Count(t) == 2
    ensures RoundTrip.IsBack(t, 1) && !RoundTrip.IsBack(t, 2) && RoundTrip.TargetAt(t, 2) == Garbage
  {
    PartsOfRun(x, false, t);
    NoThirdPart(x, false, t);
    PartArrives(x, false, t, 1, x.one);
    PartArrives(x, false, t, 2, x.three);
  }
}
