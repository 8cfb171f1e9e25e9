/** A capture followed by a deploy of the same image. */
module RoundTrip {
  import opened Machine
  import opened Wrappers
  import Capture
  import Deploy
  import Disk
  import PartitionTable
  import Resize
  import Sentinel

  /** The server gives back what it stored: a download that ends cleanly is the stored part. */
  predicate Echoes(stored: map<nat, seq<Byte>>, env: Deploy.Environment, p: nat, k: nat) {
    Deploy.Whole(env.deliver(p, k)) ==> p in stored && Deploy.Body(env.deliver(p, k)) == stored[p]
  }

  ghost predicate EchoesAll(stored: map<nat, seq<Byte>>, env: Deploy.Environment) {
    && (forall p, k :: Echoes(stored, env, p, k))
    && (Deploy.Whole(env.table) ==> 0 in stored && Deploy.Body(env.table) == stored[0])
  }

  /** The volume of a cloned partition on the target: the captured one, grown if it had been shrunk. */
  predicate Recovered(target: Volume, captured: Volume, wasShrunk: bool) {
    || target == captured
    || (wasShrunk && target.Filesystem? && captured.Filesystem?
        && target.kind == captured.kind && target.content == captured.content)
  }

  // ---------------------------------------------------------------- one part

  lemma LastTrySucceeds(env: Deploy.Environment, p: nat)
    requires Deploy.PartSucceeds(env, p)
    ensures Deploy.AttemptSucceeds(env, p, Deploy.Tries(env, p) - 1)
  {
    Deploy.TriesIs(env, p, Deploy.Tries(env, p));
  }

  /** The body the last try of a part worked on. */
  function LastBody(env: Deploy.Environment, p: nat): seq<Byte> {
    Deploy.Body(env.deliver(p, Deploy.Tries(env, p) - 1))
  }

  lemma SuccessIsWhole(env: Deploy.Environment, p: nat, k: nat)
    requires Deploy.AttemptSucceeds(env, p, k)
    ensures Deploy.Whole(env.deliver(p, k))
  {
  }

  lemma LastBodyIsStored(stored: map<nat, seq<Byte>>, env: Deploy.Environment, p: nat)
    requires Deploy.PartSucceeds(env, p) && EchoesAll(stored, env)
    ensures p in stored && LastBody(env, p) == stored[p]
  {
    var k: nat := Deploy.Tries(env, p) - 1;
    LastTrySucceeds(env, p);
    SuccessIsWhole(env, p, k);
    assert Echoes(stored, env, p, k);
  }

  lemma SwapOrder(cenv: Capture.Environment, pc: Partclone, n: nat, source: Volume)
    requires Capture.IsSwap(cenv, n)
    ensures Sentinel.IsSentinel(Capture.Upload(cenv, pc, n, source))
    ensures Sentinel.OrderOf(Capture.Upload(cenv, pc, n, source)) == Sentinel.MakeSwap(cenv.uuid(n))
  {
    Sentinel.MarshalRoundTrip(Sentinel.PartMeta(Sentinel.SWAP, cenv.uuid(n)));
  }

  /** What a device holds once an order has been carried out. */
  function AfterOrder(env: Deploy.Environment, pc: Partclone, expand: bool, p: nat, k: nat, order: Sentinel.Order,
                      was: Volume): Volume {
    match order
    case MakeSwap(uuid) => Swap(Deploy.SwapUuid(env, p, k, uuid))
    case SkipPart => was
    case RestoreImage(stream) => Deploy.Expanded(env, expand, p, k, pc.restore(stream))
  }

  lemma SuccessCarriesOut(env: Deploy.Environment, pc: Partclone, expand: bool, p: nat, k: nat, was: Volume)
    requires Deploy.AttemptSucceeds(env, p, k)
    ensures Deploy.VolumeAfter(env, pc, expand, p, k, was)
      == AfterOrder(env, pc, expand, p, k, Sentinel.OrderOf(Deploy.Body(env.deliver(p, k))), was)
  {
  }

  /** The order the last try of a part carried out. */
  function LastOrder(env: Deploy.Environment, p: nat): Sentinel.Order {
    Sentinel.OrderOf(LastBody(env, p))
  }

  lemma LastTryCarriesOut(env: Deploy.Environment, pc: Partclone, expand: bool, p: nat, was: Volume)
    requires Deploy.PartSucceeds(env, p)
    ensures var k := Deploy.Tries(env, p) - 1;
      Deploy.VolumeAfterTries(env, pc, expand, p, Deploy.Tries(env, p), was)
        == AfterOrder(env, pc, expand, p, k, LastOrder(env, p), Deploy.VolumeAfterTries(env, pc, expand, p, k, was))
  {
    var k: nat := Deploy.Tries(env, p) - 1;
    LastTrySucceeds(env, p);
    SuccessCarriesOut(env, pc, expand, p, k, Deploy.VolumeAfterTries(env, pc, expand, p, k, was));
  }

  // ---------------------------------------------------------------- expand calls

  predicate HasExpand(calls: seq<Call>, n: nat) {
    exists i :: 0 <= i < |calls| && calls[i].Expand? && calls[i].part == n
  }

  lemma HasExpandAppend(a: seq<Call>, b: seq<Call>, n: nat)
    ensures HasExpand(a + b, n) <==> HasExpand(a, n) || HasExpand(b, n)
  {
    if HasExpand(a, n) {
      var i :| 0 <= i < |a| && a[i].Expand? && a[i].part == n;
      assert (a + b)[i] == a[i];
    }
    if HasExpand(b, n) {
      var i :| 0 <= i < |b| && b[i].Expand? && b[i].part == n;
      assert (a + b)[|a| + i] == b[i];
    }
  }

  /** An attempt expands its filesystem exactly when it restored an image and is meant to expand. */
  predicate ExpandsAt(env: Deploy.Environment, expand: bool, n: nat, k: nat) {
    expand && Deploy.AttemptSucceeds(env, n, k) && !Sentinel.IsSentinel(Deploy.Body(env.deliver(n, k)))
  }

  lemma AttemptExpands(env: Deploy.Environment, expand: bool, p: nat, k: nat, device: string, n: nat)
    ensures HasExpand(Deploy.CallsOf(env, expand, p, k, device, 0), n) <==> p == n && ExpandsAt(env, expand, n, k)
  {
    var d := env.deliver(p, k);
    var calls := Deploy.CallsOf(env, expand, p, k, device, 0);
    if p == n && ExpandsAt(env, expand, n, k) {
      assert calls[|calls| - 1] == Expand(p, device, env.blkid(p, k));
    }
  }

  lemma {:induction false} FlattenHasExpand(lists: seq<seq<Call>>, n: nat)
    ensures HasExpand(Flatten(lists), n) <==> exists k :: 0 <= k < |lists| && HasExpand(lists[k], n)
  {
    if lists != [] {
      var rest := lists[1..];
      FlattenHasExpand(rest, n);
      HasExpandAppend(lists[0], Flatten(rest), n);
      assert forall k | 0 <= k < |rest| :: rest[k] == lists[k + 1];
      if exists k :: 0 <= k < |lists| && HasExpand(lists[k], n) {
        var k :| 0 <= k < |lists| && HasExpand(lists[k], n);
        assert k > 0 ==> HasExpand(rest[k - 1], n);
      }
    }
  }

  /** Of the tries made only the last can succeed, and so expand. */
  lemma PartExpands(env: Deploy.Environment, resp: ImageMeta, disk: string, p: nat, n: nat)
    ensures HasExpand(Deploy.CallsOfPart(env, resp, disk, p), n) <==>
      p == n && ExpandsAt(env, Deploy.Expands(resp, n), n, Deploy.Tries(env, n) - 1)
  {
    var expand, tries, device := Deploy.Expands(resp, p), Deploy.Tries(env, p), Disk.PartitionDevice(disk, p);
    var lists := Deploy.Attempts(env, expand, p, tries, device);
    forall k | 0 <= k < tries
      ensures HasExpand(lists[k], n) <==> p == n && k == tries - 1 && ExpandsAt(env, expand, n, k)
    {
      AttemptExpands(env, expand, p, k, device, n);
    }
    FlattenHasExpand(lists, n);
  }

  lemma RunExpands(env: Deploy.Environment, resp: ImageMeta, disk: string, m: nat, n: nat)
    ensures HasExpand(Deploy.CallsThrough(env, resp, disk, m), n) <==>
      1 <= n <= m && ExpandsAt(env, Deploy.Expands(resp, n), n, Deploy.Tries(env, n) - 1)
  {
    var lists := Deploy.PartLists(env, resp, disk, m);
    forall i | 0 <= i < m
      ensures HasExpand(lists[i], n) <==>
        i + 1 == n && ExpandsAt(env, Deploy.Expands(resp, n), n, Deploy.Tries(env, n) - 1)
    {
      PartExpands(env, resp, disk, i + 1, n);
    }
    FlattenHasExpand(lists, n);
    if 1 <= n <= m {
      assert HasExpand(lists[n - 1], n) <==> ExpandsAt(env, Deploy.Expands(resp, n), n, Deploy.Tries(env, n) - 1);
    }
  }

  lemma LastTryExpands(env: Deploy.Environment, expand: bool, p: nat)
    requires Deploy.PartSucceeds(env, p)
    ensures ExpandsAt(env, expand, p, Deploy.Tries(env, p) - 1) <==> expand && LastOrder(env, p).RestoreImage?
  {
    LastTrySucceeds(env, p);
  }

  // ---------------------------------------------------------------- the round trip

  /** A capture and a deploy of its image: what they ran in, and what they found and left. */
  datatype Trip = Trip(
    cenv: Capture.Environment, pc: Partclone, resizable: bool,
    source0: map<string, Volume>, source: map<string, Volume>,    // before and after the capture
    stored: map<nat, seq<Byte>>,                                  // the parts on the server
    denv: Deploy.Environment,
    meta: ImageMeta,                                              // what the deploy is told of the image
    target0: map<string, Volume>, target: map<string, Volume>,    // before and after the deploy
    calls0: seq<Call>, calls: seq<Call>)

  predicate HasDisks(t: Trip) {
    t.cenv.disk.Some? && t.denv.disk.Some?
  }

  /** How many partitions were captured, and the device each was found on. */
  function Count(t: Trip): nat
    requires HasDisks(t)
  {
    |Capture.DevicesOf(t.cenv)|
  }

  function DeviceOf(t: Trip, n: nat): string
    requires HasDisks(t) && 1 <= n <= Count(t)
  {
    Capture.DevicesOf(t.cenv)[n - 1]
  }

  /** The volume captured as part n. */
  function PartOf(t: Trip, n: nat): Volume
    requires HasDisks(t) && 1 <= n <= Count(t)
  {
    At(t.source, DeviceOf(t, n))
  }

  /** Partition n of the source after the capture, and of the target before and after the deploy. */
  function SourceAt(t: Trip, n: nat): Volume
    requires HasDisks(t)
  {
    At(t.source, Disk.PartitionDevice(t.cenv.disk.value, n))
  }

  function TargetBefore(t: Trip, n: nat): Volume
    requires HasDisks(t)
  {
    At(t.target0, Disk.PartitionDevice(t.denv.disk.value, n))
  }

  function TargetAt(t: Trip, n: nat): Volume
    requires HasDisks(t)
  {
    At(t.target, Disk.PartitionDevice(t.denv.disk.value, n))
  }

  /** What is assumed of partclone: it can restore what it cloned, and no clone looks like a sentinel. */
  ghost predicate CloneIsReliable(t: Trip)
    requires HasDisks(t)
  {
    forall n | 1 <= n <= Count(t) && !Capture.IsSwap(t.cenv, n) :: Recoverable(t.pc, t.cenv.blkid(n), PartOf(t, n))
  }

  /** Every part of the source was captured, and every part the metadata counts was deployed: the
      premises follow from the postconditions of Capture.Capture and Deploy.Deploy for two runs
      reported as successful, and from the echo of the server between them. */
  ghost predicate Completed(t: Trip) {
    && HasDisks(t) && CloneIsReliable(t)
    && Capture.PartsCaptured(t.cenv, t.pc, t.resizable, t.source0, t.source, t.stored)
    && EchoesAll(t.stored, t.denv)
    && Deploy.AllPartsSucceed(t.denv, t.meta.partCount)
    && Deploy.IsAfterParts(t.denv, t.pc, t.meta, t.denv.disk.value, t.meta.partCount,
                           t.target0, t.calls0, t.target, t.calls)
  }

  /** The deploy was sent the metadata of the capture. */
  predicate OwnMeta(t: Trip)
    requires HasDisks(t)
  {
    t.meta == Capture.MetaOf(t.cenv, t.resizable, Count(t))
  }

  /** Part n is one of those captured and of those deployed. */
  predicate Travels(t: Trip, n: nat)
    requires HasDisks(t)
  {
    1 <= n <= Count(t) && n <= t.meta.partCount
  }

  /** What the target holds for part n: a swap area with the original UUID, or the captured volume,
      grown perhaps. */
  predicate PartRoundTrips(t: Trip, n: nat, source: Volume, mayGrow: bool)
    requires HasDisks(t)
  {
    var target, uuid := TargetAt(t, n), t.cenv.uuid(n);
    if Capture.IsSwap(t.cenv, n) then target.Swap? && (uuid != "" ==> target == Swap(uuid))
    else Recovered(target, source, mayGrow)
  }

  function ExpandCalled(t: Trip, n: nat): bool {
    |t.calls0| <= |t.calls| && HasExpand(t.calls[|t.calls0|..], n)
  }

  lemma FixedUnlessShrunk(cenv: Capture.Environment, resizable: bool, count: nat, n: nat)
    requires 1 <= n <= count && !Capture.IsSwap(cenv, n)
    ensures Deploy.Expands(Capture.MetaOf(cenv, resizable, count), n) <==> Capture.WasShrunk(cenv, resizable, n)
  {
    Capture.FixedNumbersExact(cenv, resizable, count);
    assert "fixed"[0] != RESIZABLE[0];
  }

  lemma StoredUpload(t: Trip, n: nat)
    requires Completed(t) && Travels(t, n)
    ensures Deploy.PartSucceeds(t.denv, n)
    ensures LastBody(t.denv, n) == Capture.Upload(t.cenv, t.pc, n, PartOf(t, n))
  {
    LastBodyIsStored(t.stored, t.denv, n);
    assert Capture.IsDone(t.cenv, t.pc, t.resizable, Capture.DevicesOf(t.cenv), n - 1, t.source0, t.source, t.stored);
  }

  /** The order for a part is to recreate its swap, or to restore an image of it. */
  predicate OrderFor(t: Trip, n: nat, order: Sentinel.Order)
    requires HasDisks(t) && 1 <= n <= Count(t)
  {
    if Capture.IsSwap(t.cenv, n) then order == Sentinel.MakeSwap(t.cenv.uuid(n))
    else order.RestoreImage? && t.pc.restore(order.stream) == PartOf(t, n)
  }

  lemma UploadOrders(t: Trip, n: nat)
    requires HasDisks(t) && 1 <= n <= Count(t) && CloneIsReliable(t)
    ensures OrderFor(t, n, Sentinel.OrderOf(Capture.Upload(t.cenv, t.pc, n, PartOf(t, n))))
  {
    if Capture.IsSwap(t.cenv, n) {
      SwapOrder(t.cenv, t.pc, n, PartOf(t, n));
    }
  }

  lemma LastOrderFor(t: Trip, n: nat)
    requires Completed(t) && Travels(t, n)
    ensures Deploy.PartSucceeds(t.denv, n) && OrderFor(t, n, LastOrder(t.denv, n))
  {
    StoredUpload(t, n);
    UploadOrders(t, n);
  }

  /** Carrying out the order at try k leaves this on the target, and asks for an expansion or does not. */
  predicate Landed(t: Trip, n: nat, k: nat, order: Sentinel.Order, was: Volume)
    requires HasDisks(t)
  {
    && TargetAt(t, n) == AfterOrder(t.denv, t.pc, Deploy.Expands(t.meta, n), n, k, order, was)
    && (ExpandCalled(t, n) <==> Deploy.Expands(t.meta, n) && order.RestoreImage?)
  }

  lemma TargetVolume(t: Trip, n: nat)
    requires Completed(t) && Travels(t, n)
    ensures TargetAt(t, n) ==
      Deploy.VolumeAfterTries(t.denv, t.pc, Deploy.Expands(t.meta, n), n, Deploy.Tries(t.denv, n), TargetBefore(t, n))
    ensures ExpandCalled(t, n) <==> ExpandsAt(t.denv, Deploy.Expands(t.meta, n), n, Deploy.Tries(t.denv, n) - 1)
  {
    var disk := t.denv.disk.value;
    assert Deploy.IsPartDone(t.denv, t.pc, t.meta, disk, n, t.target0, t.target);
    assert t.calls[|t.calls0|..] == Deploy.CallsThrough(t.denv, t.meta, disk, t.meta.partCount);
    RunExpands(t.denv, t.meta, disk, t.meta.partCount, n);
  }

  lemma PartLands(t: Trip, n: nat) returns (k: nat, order: Sentinel.Order, was: Volume)
    requires Completed(t) && Travels(t, n)
    ensures k == Deploy.Tries(t.denv, n) - 1 && OrderFor(t, n, order) && Landed(t, n, k, order, was)
  {
    LastOrderFor(t, n);
    TargetVolume(t, n);
    k, order, was := TriesLand(t, n);
  }

  lemma TriesLand(t: Trip, n: nat) returns (k: nat, order: Sentinel.Order, was: Volume)
    requires HasDisks(t) && Deploy.PartSucceeds(t.denv, n)
    requires TargetAt(t, n) ==
      Deploy.VolumeAfterTries(t.denv, t.pc, Deploy.Expands(t.meta, n), n, Deploy.Tries(t.denv, n), TargetBefore(t, n))
    requires ExpandCalled(t, n) <==> ExpandsAt(t.denv, Deploy.Expands(t.meta, n), n, Deploy.Tries(t.denv, n) - 1)
    ensures k == Deploy.Tries(t.denv, n) - 1 && order == LastOrder(t.denv, n) && Landed(t, n, k, order, was)
  {
    k, order := Deploy.Tries(t.denv, n) - 1, LastOrder(t.denv, n);
    was := LastTry(t.denv, t.pc, Deploy.Expands(t.meta, n), n, TargetBefore(t, n));
  }

  lemma LastTry(env: Deploy.Environment, pc: Partclone, expand: bool, p: nat, before: Volume) returns (was: Volume)
    requires Deploy.PartSucceeds(env, p)
    ensures Deploy.VolumeAfterTries(env, pc, expand, p, Deploy.Tries(env, p), before)
      == AfterOrder(env, pc, expand, p, Deploy.Tries(env, p) - 1, LastOrder(env, p), was)
    ensures ExpandsAt(env, expand, p, Deploy.Tries(env, p) - 1) <==> expand && LastOrder(env, p).RestoreImage?
  {
    was := Deploy.VolumeAfterTries(env, pc, expand, p, Deploy.Tries(env, p) - 1, before);
    LastTryCarriesOut(env, pc, expand, p, before);
    LastTryExpands(env, expand, p);
  }

  lemma SwapLands(t: Trip, n: nat, k: nat, order: Sentinel.Order, was: Volume)
    requires HasDisks(t) && 1 <= n <= Count(t) && Capture.IsSwap(t.cenv, n)
    requires OrderFor(t, n, order) && Landed(t, n, k, order, was)
    ensures TargetAt(t, n) == Swap(Deploy.SwapUuid(t.denv, n, k, t.cenv.uuid(n))) && !ExpandCalled(t, n)
  {
  }

  lemma ImageLands(t: Trip, n: nat, k: nat, order: Sentinel.Order, was: Volume)
    requires HasDisks(t) && 1 <= n <= Count(t) && !Capture.IsSwap(t.cenv, n)
    requires OrderFor(t, n, order) && Landed(t, n, k, order, was)
    ensures TargetAt(t, n) == Deploy.Expanded(t.denv, Deploy.Expands(t.meta, n), n, k, PartOf(t, n))
    ensures ExpandCalled(t, n) <==> Deploy.Expands(t.meta, n)
  {
  }

  /** As the order says, so the part comes back. */
  lemma LandedRoundTrips(t: Trip, n: nat, k: nat, order: Sentinel.Order, was: Volume)
    requires HasDisks(t) && 1 <= n <= Count(t) && OrderFor(t, n, order) && Landed(t, n, k, order, was)
    ensures PartRoundTrips(t, n, PartOf(t, n), Deploy.Expands(t.meta, n))
    ensures ExpandCalled(t, n) <==> Deploy.Expands(t.meta, n) && !Capture.IsSwap(t.cenv, n)
  {
    if Capture.IsSwap(t.cenv, n) {
      SwapLands(t, n, k, order, was);
    } else {
      ImageLands(t, n, k, order, was);
    }
  }

  /** Whatever metadata the deploy is sent, every part it counts arrives, and its filesystem is
      expanded exactly when the metadata says so; a part it does not count is left alone. */
  lemma PartArrives(t: Trip, n: nat)
    requires Completed(t) && 1 <= n <= Count(t)
    ensures n <= t.meta.partCount ==>
      && PartRoundTrips(t, n, PartOf(t, n), Deploy.Expands(t.meta, n))
      && (ExpandCalled(t, n) <==> Deploy.Expands(t.meta, n) && !Capture.IsSwap(t.cenv, n))
    ensures n > t.meta.partCount ==> TargetAt(t, n) == TargetBefore(t, n)
  {
    if n > t.meta.partCount {
      Deploy.LaterPartsUntouched(t.denv, t.pc, t.meta, t.denv.disk.value, t.meta.partCount, t.target0, t.calls0,
                                 t.target, t.calls, n);
    } else {
      var k, order, was := PartLands(t, n);
      LandedRoundTrips(t, n, k, order, was);
    }
  }

  /** With the metadata of the capture, part n on the target holds what the n-th discovered partition
      of the source held when it was captured, and its filesystem was expanded exactly when the capture
      had shrunk it. */
  lemma DeviceRoundTrip(t: Trip, n: nat)
    requires Completed(t) && OwnMeta(t) && 1 <= n <= Count(t)
    ensures PartRoundTrips(t, n, PartOf(t, n), Capture.WasShrunk(t.cenv, t.resizable, n))
    ensures ExpandCalled(t, n) <==> Capture.WasShrunk(t.cenv, t.resizable, n)
  {
    PartArrives(t, n);
    if !Capture.IsSwap(t.cenv, n) {
      FixedUnlessShrunk(t.cenv, t.resizable, Count(t), n);
    }
  }

  /** And it then fills its partition, where blkid still knows it and the tool works. */
  lemma ShrunkFillsPartition(t: Trip, n: nat)
    requires Completed(t) && OwnMeta(t) && 1 <= n <= Count(t)
    requires Capture.WasShrunk(t.cenv, t.resizable, n) && PartOf(t, n).Filesystem?
    requires var k := Deploy.Tries(t.denv, n) - 1;
      && t.denv.blkid(n, k) == t.cenv.blkid(n) && t.denv.grown(n, k)
      && n in Deploy.EntriesAfter(t.denv)
    ensures TargetAt(t, n) == PartOf(t, n).(size := Deploy.EntriesAfter(t.denv)[n])
  {
    FixedUnlessShrunk(t.cenv, t.resizable, Count(t), n);
    Resize.ShrinkableCanGrow(t.cenv.blkid(n));
    var k, order, was := PartLands(t, n);
    ImageLands(t, n, k, order, was);
  }

  // ---------------------------------------------------------------- which parts come back

  /** blkid tells swap from the rest, and its UUID. */
  predicate ReadsRight(cenv: Capture.Environment, n: nat, original: Volume) {
    && (Capture.IsSwap(cenv, n) <==> original.Swap?)
    && (original.Swap? ==> original.uuid == cenv.uuid(n) != "")
  }

  predicate SameData(v: Volume, original: Volume) {
    || v == original
    || (v.Filesystem? && original.Filesystem? && v.kind == original.kind && v.content == original.content)
  }

  lemma SameDataIsTransitive(v: Volume, w: Volume, x: Volume)
    ensures SameData(v, w) && SameData(v, x) ==> SameData(w, x)
  {
  }

  predicate SwapIsRead(t: Trip, n: nat)
    requires HasDisks(t) && 1 <= n <= Count(t)
  {
    Capture.IsSwap(t.cenv, n) ==> ReadsRight(t.cenv, n, PartOf(t, n))
  }

  /** Part n is on the target. */
  predicate IsBack(t: Trip, n: nat)
    requires HasDisks(t) && 1 <= n <= Count(t)
  {
    SameData(TargetAt(t, n), PartOf(t, n))
  }

  /** A captured part comes back exactly when the metadata counts it, on a target that did not hold its
      data before. */
  lemma PartIsBackIff(t: Trip, n: nat)
    requires Completed(t) && 1 <= n <= Count(t) && SwapIsRead(t, n)
    requires !SameData(TargetBefore(t, n), PartOf(t, n))
    ensures IsBack(t, n) <==> n <= t.meta.partCount
  {
    PartArrives(t, n);
  }

  /** All of them come back exactly when the metadata counts no fewer than were captured. */
  lemma AllBackIff(t: Trip)
    requires Completed(t)
    requires forall n | 1 <= n <= Count(t) :: SwapIsRead(t, n) && !SameData(TargetBefore(t, n), PartOf(t, n))
    ensures (forall n | 1 <= n <= Count(t) :: IsBack(t, n)) <==> t.meta.partCount >= Count(t)
  {
    forall n | 1 <= n <= Count(t) ensures IsBack(t, n) <==> n <= t.meta.partCount {
      PartIsBackIff(t, n);
    }
    assert Count(t) > 0 && IsBack(t, Count(t)) ==> Count(t) <= t.meta.partCount;
  }

  // ---------------------------------------------------------------- in place

  /** Where part n comes from: source partition m, with m at least n, and m is n exactly when no number
      up to there is missing on the source. */
  lemma SourceOfPart(t: Trip, n: nat) returns (m: nat)
    requires Completed(t) && Travels(t, n)
    ensures n <= m <= Disk.MAX_PARTS && t.cenv.exists_(m) && PartOf(t, n) == SourceAt(t, m)
    ensures m == n <==> Disk.NoneMissing(t.cenv.exists_, n)
    ensures PartRoundTrips(t, n, SourceAt(t, m), Deploy.Expands(t.meta, n))
  {
    m := Disk.Numbers(t.cenv.exists_, Disk.MAX_PARTS)[n - 1];
    Disk.PartNumberAgreesIff(t.cenv.disk.value, t.cenv.exists_, Disk.MAX_PARTS, n - 1);
    PartArrives(t, n);
  }

  /** No other partition of the source could pass for partition n. */
  ghost predicate StandsOut(t: Trip, n: nat)
    requires HasDisks(t)
  {
    forall m | m != n && 1 <= m <= Disk.MAX_PARTS && t.cenv.exists_(m) :: !SameData(SourceAt(t, m), SourceAt(t, n))
  }

  /** Partition n of the target holds the data of partition n of the source. */
  predicate InPlace(t: Trip, n: nat)
    requires HasDisks(t)
  {
    SameData(TargetAt(t, n), SourceAt(t, n))
  }

  lemma InPlaceIfSame(t: Trip, n: nat, m: nat)
    requires HasDisks(t) && StandsOut(t, n) && 1 <= m <= Disk.MAX_PARTS && t.cenv.exists_(m)
    requires SameData(TargetAt(t, n), SourceAt(t, m))
    ensures InPlace(t, n) <==> m == n
  {
    SameDataIsTransitive(TargetAt(t, n), SourceAt(t, m), SourceAt(t, n));
    assert m != n ==> !SameData(SourceAt(t, m), SourceAt(t, n));
  }

  /** When a partition comes back in place: partition n of the target holds the data of partition n of
      the source exactly when no partition up to n is missing on the source. */
  lemma ComesBackInPlaceIff(t: Trip, n: nat)
    requires Completed(t) && Travels(t, n) && SwapIsRead(t, n) && StandsOut(t, n)
    ensures InPlace(t, n) <==> Disk.NoneMissing(t.cenv.exists_, n)
  {
    var m := SourceOfPart(t, n);
    assert SameData(TargetAt(t, n), SourceAt(t, m));
    InPlaceIfSame(t, n, m);
  }

  /** The whole disk comes back in place exactly when its numbering has no gap. */
  lemma AllInPlaceIff(t: Trip)
    requires Completed(t) && t.meta.partCount >= Count(t)
    requires forall n | 1 <= n <= Count(t) :: SwapIsRead(t, n) && StandsOut(t, n)
    ensures (forall n | 1 <= n <= Count(t) :: InPlace(t, n)) <==> Disk.GapFree(t.cenv.exists_, Disk.MAX_PARTS)
  {
    forall n | 1 <= n <= Count(t) ensures InPlace(t, n) <==> Disk.NoneMissing(t.cenv.exists_, n) {
      ComesBackInPlaceIff(t, n);
    }
    Disk.GapFreeIffNoneMissing(t.cenv.exists_, Disk.MAX_PARTS);
    assert Count(t) > 0 && InPlace(t, Count(t)) ==> Disk.NoneMissing(t.cenv.exists_, Count(t));
  }

  lemma GapFreeBelow(exists_: nat -> bool, max: nat, n: nat, m: nat)
    requires Disk.GapFree(exists_, max) && n <= m <= max && exists_(m)
    ensures Disk.NoneMissing(exists_, n)
  {
  }

  /** Without gaps in the numbering the n-th device is that of partition n. */
  lemma DeviceIsNumber(t: Trip, n: nat)
    requires HasDisks(t) && Disk.GapFree(t.cenv.exists_, Disk.MAX_PARTS) && 1 <= n <= Count(t)
    ensures DeviceOf(t, n) == Disk.PartitionDevice(t.cenv.disk.value, n)
  {
    Disk.PartNumberAgreesIff(t.cenv.disk.value, t.cenv.exists_, Disk.MAX_PARTS, n - 1);
    GapFreeBelow(t.cenv.exists_, Disk.MAX_PARTS, n, Disk.Numbers(t.cenv.exists_, Disk.MAX_PARTS)[n - 1]);
  }

  /** The end-to-end theorem: on a source without gaps in its numbering, partition n of the target
      is partition n of the source, for every n, and its filesystem was expanded exactly when it had
      been shrunk. */
  lemma EndToEnd(t: Trip, n: nat)
    requires Completed(t) && OwnMeta(t) && 1 <= n <= Count(t)
    requires Disk.GapFree(t.cenv.exists_, Disk.MAX_PARTS)
    ensures PartRoundTrips(t, n, SourceAt(t, n), Capture.WasShrunk(t.cenv, t.resizable, n))
    ensures ExpandCalled(t, n) <==> Capture.WasShrunk(t.cenv, t.resizable, n)
  {
    DeviceRoundTrip(t, n);
    DeviceIsNumber(t, n);
  }

  // ---------------------------------------------------------------- back to the original

  /** Nothing but its size is changed before a part is cloned: no file is cleaned away, and no shrink
      fails half way. */
  predicate KeepsContent(cenv: Capture.Environment, resizable: bool, n: nat) {
    resizable ==> cenv.blkid(n) != "ntfs" && !Capture.ShrinkOf(cenv, n).ShrinkFailed?
  }

  /** What comes back is the partition as it was before the capture, swap included; but for the size
      of a filesystem that was shrunk or may grow it is the very same. */
  lemma OriginalComesBack(t: Trip, n: nat, original: Volume, mayGrow: bool)
    requires HasDisks(t) && ReadsRight(t.cenv, n, original) && KeepsContent(t.cenv, t.resizable, n)
    requires PartRoundTrips(t, n, Capture.Prepared(t.cenv, t.resizable, n, original), mayGrow)
    ensures SameData(TargetAt(t, n), original)
    ensures !Capture.WasShrunk(t.cenv, t.resizable, n) && !mayGrow ==> TargetAt(t, n) == original
  {
    Resize.ShrinkableCanGrow(t.cenv.blkid(n));
  }

  lemma PartIsPrepared(t: Trip, n: nat)
    requires Completed(t) && 1 <= n <= Count(t)
    ensures PartOf(t, n) == Capture.Prepared(t.cenv, t.resizable, n, At(t.source0, DeviceOf(t, n)))
  {
    assert Capture.IsDone(t.cenv, t.pc, t.resizable, Capture.DevicesOf(t.cenv), n - 1, t.source0, t.source, t.stored);
  }

  /** Without gaps, where blkid reads right and only sizes change, every partition the metadata counts
      holds on the target what it held on the source before the capture. */
  lemma EndToEndFromOriginal(t: Trip, n: nat)
    requires Completed(t) && Travels(t, n) && Disk.GapFree(t.cenv.exists_, Disk.MAX_PARTS)
    requires ReadsRight(t.cenv, n, At(t.source0, Disk.PartitionDevice(t.cenv.disk.value, n)))
    requires KeepsContent(t.cenv, t.resizable, n)
    ensures SameData(TargetAt(t, n), At(t.source0, Disk.PartitionDevice(t.cenv.disk.value, n)))
  {
    DeviceIsNumber(t, n);
    PartIsPrepared(t, n);
    PartArrives(t, n);
    OriginalComesBack(t, n, At(t.source0, DeviceOf(t, n)), Deploy.Expands(t.meta, n));
  }

  // ---------------------------------------------------------------- both actions in a row

  /** A network that may fail in any way, but whose complete downloads are what the server stored. */
  ghost predicate IsFaithful(network: (nat, nat, seq<Byte>) -> Deploy.Delivery) {
    forall p, k, b :: Deploy.Whole(network(p, k, b)) ==> Deploy.Body(network(p, k, b)) == b
  }

  /** The downloads of a deploy from this server. */
  function Downloading(denv: Deploy.Environment, network: (nat, nat, seq<Byte>) -> Deploy.Delivery,
                       stored: map<nat, seq<Byte>>): Deploy.Environment {
    denv.(deliver := (p: nat, k: nat) => if p in stored then network(p, k, stored[p]) else Deploy.NoResponse,
          table := if 0 in stored then network(0, 0, stored[0]) else Deploy.NoResponse)
  }

  lemma DownloadingEchoes(denv: Deploy.Environment, network: (nat, nat, seq<Byte>) -> Deploy.Delivery,
                          stored: map<nat, seq<Byte>>)
    requires IsFaithful(network)
    ensures EchoesAll(stored, Downloading(denv, network, stored))
  {
  }

  /** partclone is reliable on what this capture will clone. */
  ghost predicate WillBeReliable(cenv: Capture.Environment, pc: Partclone, resizable: bool,
                                 source0: map<string, Volume>)
    requires cenv.disk.Some?
  {
    forall i | 0 <= i < |Capture.DevicesOf(cenv)| && !Capture.IsSwap(cenv, i + 1) ::
      Recoverable(pc, cenv.blkid(i + 1),
                  Capture.Prepared(cenv, resizable, i + 1, At(source0, Capture.DevicesOf(cenv)[i])))
  }

  /** Every download arrives whole and every tool works, at the first attempt at least. */
  ghost predicate NothingFails(denv: Deploy.Environment, network: (nat, nat, seq<Byte>) -> Deploy.Delivery) {
    && denv.disk.Some?
    && (forall p, b :: Deploy.Whole(network(p, 0, b)))
    && (forall p :: denv.swapMade(p, 0) && denv.restored(p, 0))
    && denv.tableTools.tempFile && denv.tableTools.tempWrite && denv.tableTools.load
    && denv.tableTools.open && denv.tableTools.write && denv.tableTools.sfdisk
  }

  /** What a captured image is for a deploy: a blob that asks for the table backed up, and every part. */
  ghost predicate ImageStored(cenv: Capture.Environment, pc: Partclone, resizable: bool,
                              source0: map<string, Volume>, source: map<string, Volume>, stored: map<nat, seq<Byte>>)
  {
    && PartitionTable.ReadFits(cenv.tableTools) && PartitionTable.BackupSucceeds(cenv.tableTools)
    && 0 in stored && PartitionTable.PlanOf(stored[0]) == PartitionTable.BackedUp(cenv.tableTools)
    && Capture.PartsCaptured(cenv, pc, resizable, source0, source, stored)
  }

  lemma CapturedIsStored(cenv: Capture.Environment, pc: Partclone, resizable: bool,
                         source0: map<string, Volume>, source: map<string, Volume>, stored: map<nat, seq<Byte>>)
    requires Capture.Captured(cenv, pc, resizable, source0, source, stored)
    ensures ImageStored(cenv, pc, resizable, source0, source, stored)
  {
    PartitionTable.BackupRestores(cenv.tableTools);
  }

  /** No captured image is undeployable. */
  lemma CapturedIsDeployable(cenv: Capture.Environment, denv: Deploy.Environment,
                             network: (nat, nat, seq<Byte>) -> Deploy.Delivery, pc: Partclone, resizable: bool,
                             source0: map<string, Volume>, source: map<string, Volume>, stored: map<nat, seq<Byte>>,
                             partCount: nat)
    requires ImageStored(cenv, pc, resizable, source0, source, stored) && IsFaithful(network)
    requires NothingFails(denv, network) && partCount <= |Capture.DevicesOf(cenv)|
    ensures Deploy.SetupSucceeds(Downloading(denv, network, stored))
    ensures Deploy.AllPartsSucceed(Downloading(denv, network, stored), partCount)
  {
    var env, devices := Downloading(denv, network, stored), Capture.DevicesOf(cenv);
    assert Deploy.Whole(network(0, 0, stored[0]));
    forall p | 1 <= p <= partCount ensures Deploy.PartSucceeds(env, p) {
      assert Capture.IsDone(cenv, pc, resizable, devices, p - 1, source0, source, stored);
      assert env.deliver(p, 0) == network(p, 0, stored[p]);
      assert Deploy.AttemptSucceeds(env, p, 0);
    }
  }

  lemma ReliableOnParts(t: Trip)
    requires HasDisks(t) && WillBeReliable(t.cenv, t.pc, t.resizable, t.source0)
    requires Capture.PartsCaptured(t.cenv, t.pc, t.resizable, t.source0, t.source, t.stored)
    ensures CloneIsReliable(t)
  {
    forall n | 1 <= n <= Count(t) && !Capture.IsSwap(t.cenv, n)
      ensures Recoverable(t.pc, t.cenv.blkid(n), PartOf(t, n))
    {
      assert Capture.IsDone(t.cenv, t.pc, t.resizable, Capture.DevicesOf(t.cenv), n - 1, t.source0, t.source, t.stored);
    }
  }

  /** The table the deploy is to restore is the one backed up. */
  lemma TableEchoes(cenv: Capture.Environment, denv: Deploy.Environment, pc: Partclone, resizable: bool,
                    source0: map<string, Volume>, source: map<string, Volume>, stored: map<nat, seq<Byte>>)
    requires ImageStored(cenv, pc, resizable, source0, source, stored)
    requires EchoesAll(stored, denv) && Deploy.Whole(denv.table)
    ensures PartitionTable.PlanOf(Deploy.Body(denv.table)) == PartitionTable.BackedUp(cenv.tableTools)
  {
  }

  /** The target has the table that was backed up. */
  ghost predicate TableComesBack(cenv: Capture.Environment, target: Computer)
    reads target, target.area
  {
    && PartitionTable.ReadFits(cenv.tableTools) && PartitionTable.BackupSucceeds(cenv.tableTools)
    && PartitionTable.Holds(PartitionTable.BackedUp(cenv.tableTools), target.area.boot, target.area.table)
  }

  /** A deploy of what a successful capture left on the server, with any metadata. If it reports success
      the target has the table backed up, and `t` tells what its partitions hold. */
  method DeployCaptured(server: Server, target: Computer, cenv: Capture.Environment, denv: Deploy.Environment,
                        network: (nat, nat, seq<Byte>) -> Deploy.Delivery, pc: Partclone, resizable: bool,
                        meta: ImageMeta, ghost source0: map<string, Volume>, ghost source: map<string, Volume>)
    returns (deployed: bool, ghost t: Trip)
    requires ImageStored(cenv, pc, resizable, source0, source, server.parts) && IsFaithful(network)
    requires WillBeReliable(cenv, pc, resizable, source0)
    modifies target`volumes, target`sizes, target`calls, target.area, server`completed, server`posts
    ensures Reported(old(server.completed), old(server.posts), server.completed, server.posts, denv.report, deployed)
    ensures NothingFails(denv, network) && meta.partCount <= |Capture.DevicesOf(cenv)| ==> deployed
    ensures t == Trip(cenv, pc, resizable, source0, source, server.parts,
                      Downloading(denv, network, server.parts), meta,
                      old(target.volumes), target.volumes, old(target.calls), target.calls)
    ensures deployed ==> TableComesBack(cenv, target) && Completed(t)
  {
    ghost var target0, calls0 := target.volumes, target.calls;
    var env := Downloading(denv, network, server.parts);
    DownloadingEchoes(denv, network, server.parts);
    if NothingFails(denv, network) && meta.partCount <= |Capture.DevicesOf(cenv)| {
      CapturedIsDeployable(cenv, denv, network, pc, resizable, source0, source, server.parts, meta.partCount);
    }
    var reached, err;
    deployed, reached, err := Deploy.Deploy(target, server, env, pc, meta);
    t := Trip(cenv, pc, resizable, source0, source, server.parts, env, meta,
              target0, target.volumes, calls0, target.calls);
    if deployed {
      ReliableOnParts(t);
      TableEchoes(cenv, env, pc, resizable, source0, source, server.parts);
    }
  }

  /** Whether a capture succeeds. */
  ghost predicate GetsThrough(cenv: Capture.Environment, pc: Partclone, resizable: bool, source0: map<string, Volume>)
    requires Capture.PipesComplete(cenv)
  {
    && Capture.SetupSucceeds(cenv)
    && Capture.AllPartsCaptured(cenv, pc, resizable, Capture.DevicesOf(cenv), |Capture.DevicesOf(cenv)|, source0)
  }

  /** A capture, and what a deploy of it relies on. */
  method CaptureImage(source: Computer, server: Server, cenv: Capture.Environment, pc: Partclone, imageType: string)
    returns (captured: bool)
    requires Capture.PipesComplete(cenv) && PartitionTable.ReadFits(cenv.tableTools)
    modifies source`volumes, server
    ensures server.completed == old(server.completed) + [captured]
    ensures captured <==> GetsThrough(cenv, pc, imageType == RESIZABLE, old(source.volumes))
    ensures captured ==>
      ImageStored(cenv, pc, imageType == RESIZABLE, old(source.volumes), source.volumes, server.parts)
    ensures server.meta ==
      if captured && Capture.MetaStored(cenv)
      then Some(Capture.MetaOf(cenv, imageType == RESIZABLE, |Capture.DevicesOf(cenv)|)) else old(server.meta)
  {
    var reached, err;
    captured, reached, err := Capture.Capture(source, server, cenv, pc, imageType);
    if captured {
      CapturedIsStored(cenv, pc, imageType == RESIZABLE, old(source.volumes), source.volumes, server.parts);
    }
  }

  /** A capture, and if it succeeds a deploy with the metadata the server then has, on the same computer
      or another, under every pattern of failures. When both report success the target has the table of
      the source, and `t` is complete: every part the metadata counts has come back. The metadata is that
      of the capture if it was stored, and whatever the server had before if not. */
  method CaptureThenDeploy(source: Computer, server: Server, target: Computer, cenv: Capture.Environment,
                           denv: Deploy.Environment, network: (nat, nat, seq<Byte>) -> Deploy.Delivery,
                           pc: Partclone, imageType: string)
    returns (captured: bool, deployed: bool, ghost t: Trip)
    requires Capture.PipesComplete(cenv) && IsFaithful(network) && PartitionTable.ReadFits(cenv.tableTools)
    requires cenv.disk.Some? ==> WillBeReliable(cenv, pc, imageType == RESIZABLE, source.volumes)
    modifies source`volumes, server, target`volumes, target`sizes, target`calls, target.area
    ensures server.completed
      == old(server.completed) + [captured] + if captured && server.meta.Some? then [deployed] else []
    ensures captured <==> GetsThrough(cenv, pc, imageType == RESIZABLE, old(source.volumes))
    ensures server.meta ==
      if captured && Capture.MetaStored(cenv)
      then Some(Capture.MetaOf(cenv, imageType == RESIZABLE, |Capture.DevicesOf(cenv)|)) else old(server.meta)
    ensures captured && server.meta.Some? && server.meta.value.partCount <= |Capture.DevicesOf(cenv)| ==>
      NothingFails(denv, network) ==> deployed
    ensures t.cenv == cenv && t.pc == pc && t.resizable == (imageType == RESIZABLE) && t.denv.disk == denv.disk
    ensures t.source0 == old(source.volumes) && t.target == target.volumes
    ensures source != target ==> t.source == source.volumes && t.target0 == old(target.volumes)
    ensures source == target ==> t.source == t.target0
    ensures !captured ==> !deployed && t.target == t.target0
    ensures deployed ==> captured && server.meta == Some(t.meta) && TableComesBack(cenv, target) && Completed(t)
  {
    var resizable := imageType == RESIZABLE;
    deployed := false;
    captured := CaptureImage(source, server, cenv, pc, imageType);
    t := Trip(cenv, pc, resizable, old(source.volumes), source.volumes, server.parts, denv, ImageMeta("", [], 0),
              target.volumes, target.volumes, target.calls, target.calls);
    if captured && server.meta.Some? {
      deployed, t := DeployCaptured(server, target, cenv, denv, network, pc, resizable, server.meta.value,
                                    old(source.volumes), source.volumes);
    }
  }

  /** What a completed trip amounts to, part by part: prepared for its capture, and back on the target or,
      if the metadata does not count it, not. */
  lemma WhatComesBack(t: Trip, n: nat)
    requires Completed(t) && 1 <= n <= Count(t)
    ensures PartOf(t, n) == Capture.Prepared(t.cenv, t.resizable, n, At(t.source0, DeviceOf(t, n)))
    ensures n <= t.meta.partCount ==> PartRoundTrips(t, n, PartOf(t, n), Deploy.Expands(t.meta, n))
    ensures n > t.meta.partCount ==> TargetAt(t, n) == TargetBefore(t, n)
    ensures OwnMeta(t) ==> PartRoundTrips(t, n, PartOf(t, n), Capture.WasShrunk(t.cenv, t.resizable, n))
  {
    PartIsPrepared(t, n);
    PartArrives(t, n);
    if OwnMeta(t) {
      DeviceRoundTrip(t, n);
    }
  }
}
