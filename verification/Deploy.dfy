/** The deploy action: the partition table, then every part with up to three attempts. */
module Deploy {
  import opened Machine
  import opened Wrappers
  import Client
  import Disk
  import GoText
  import Parted
  import PartitionTable
  import Readers
  import Resize
  import Sentinel

  const ATTEMPTS: nat := 3

  /** One DownloadPart: an error, or a body that arrives in chunks and ends cleanly or breaks. */
  datatype Delivery = NoResponse | Response(chunks: seq<seq<Byte>>, clean: bool, early: bool)

  /** Everything a run depends on that the agent does not decide; by part and attempt. */
  datatype Environment = Environment(
    disk: Option<string>,                       // disk.Primary
    table: Delivery,                            // the download of part 0
    tableTools: PartitionTable.RestoreTools,
    deliver: (nat, nat) -> Delivery,
    swapMade: (nat, nat) -> bool,               // mkswap
    newUuid: (nat, nat) -> string,              // the UUID mkswap makes up when given none
    restored: (nat, nat) -> bool,               // partclone.restore on a stream it could read
    wreck: (nat, nat) -> Volume,                // what a failed mkswap or restore leaves behind
    blkid: (nat, nat) -> string,                // the filesystem found after the restore
    grown: (nat, nat) -> bool,                  // the resize tool of an expansion
    entries: map<int, nat>,                     // the partition sizes of the table restored, by number
    parted: Option<string>,                     // parted's listing of it
    resized: bool,                              // parted's resizepart of the last partition
    rest: nat,                                  // the size it then has, up to the end of the disk
    report: Client.Replies)                     // the requests of the final report

  // ---------------------------------------------------------------- one attempt

  function Body(d: Delivery): seq<Byte> {
    if d.Response? then Flatten(d.chunks) else []
  }

  predicate Whole(d: Delivery) {
    d.Response? && d.clean
  }

  /** An attempt succeeds when the whole body arrives and is carried out. */
  predicate AttemptSucceeds(env: Environment, p: nat, k: nat) {
    Whole(env.deliver(p, k)) &&
    match Sentinel.OrderOf(Body(env.deliver(p, k)))
    case MakeSwap(_) => env.swapMade(p, k)
    case SkipPart => true
    case RestoreImage(_) => env.restored(p, k)
  }

  function SwapUuid(env: Environment, p: nat, k: nat, uuid: string): string {
    if uuid != "" then uuid else env.newUuid(p, k)
  }

  predicate IsNtfs(fs: string) {
    GoText.ToLower(fs) == "ntfs"
  }

  /** The partition sizes once ExpandLast has run: the last partition reaches the end of the disk, if
      it was found and resized. */
  function EntriesAfter(env: Environment): map<int, nat> {
    match Parted.Last(env.parted)
    case Some(last) => if env.resized then env.entries[last := env.rest] else env.entries
    case None => env.entries
  }

  /** Whether Expand makes a filesystem as large as its partition. */
  predicate CanFill(env: Environment, p: nat, k: nat) {
    Resize.ExpandTool(env.blkid(p, k)).Some? && env.grown(p, k) && p in EntriesAfter(env)
  }

  /** Only a resizable deploy expands, so the last partition has been grown before. */
  function Expanded(env: Environment, expand: bool, p: nat, k: nat, v: Volume): Volume {
    if expand && CanFill(env, p, k) && v.Filesystem? then v.(size := EntriesAfter(env)[p]) else v
  }

  /** What a sentinel read whole leaves on the device, and the calls it takes. */
  function AfterSentinel(env: Environment, p: nat, k: nat, raw: seq<Byte>, was: Volume): Volume {
    match Sentinel.OrderOf(raw)
    case MakeSwap(uuid) => if env.swapMade(p, k) then Swap(SwapUuid(env, p, k, uuid)) else env.wreck(p, k)
    case _ => was
  }

  function SentinelCalls(p: nat, device: string, raw: seq<Byte>): seq<Call> {
    match Sentinel.OrderOf(raw)
    case MakeSwap(uuid) => [Call.MakeSwap(p, device, uuid)]
    case _ => []
  }

  /** The same for an image, which a broken read fails as surely as partclone does. */
  function AfterRestore(env: Environment, pc: Partclone, expand: bool, p: nat, k: nat, raw: seq<Byte>, readOk: bool)
    : Volume
  {
    if readOk && env.restored(p, k) then Expanded(env, expand, p, k, pc.restore(raw)) else env.wreck(p, k)
  }

  function RestoreCalls(env: Environment, expand: bool, p: nat, k: nat, device: string, readOk: bool): seq<Call> {
    [Call.RestoreImage(p, device)] +
    if !readOk || !env.restored(p, k) then []
    else
      (if IsNtfs(env.blkid(p, k)) then [ClearDirty(p, device)] else []) +
      (if expand then [Expand(p, device, env.blkid(p, k))] else [])
  }

  /** What the device holds after an attempt, given what it held before. */
  function VolumeAfter(env: Environment, pc: Partclone, expand: bool, p: nat, k: nat, was: Volume): Volume {
    var d := env.deliver(p, k);
    if d.NoResponse? then was
    else if !Sentinel.IsSentinel(Body(d)) then AfterRestore(env, pc, expand, p, k, Body(d), d.clean)
    else if d.clean then AfterSentinel(env, p, k, Body(d), was)
    else was
  }

  function CallsOf(env: Environment, expand: bool, p: nat, k: nat, device: string, offset: nat): seq<Call> {
    var d := env.deliver(p, k);
    [Download(p, offset)] +
    if d.NoResponse? then []
    else if !Sentinel.IsSentinel(Body(d)) then RestoreCalls(env, expand, p, k, device, d.clean)
    else if d.clean then SentinelCalls(p, device, Body(d))
    else []
  }

  method CarryOutSentinel(c: Computer, env: Environment, p: nat, k: nat, device: string, raw: seq<Byte>)
    returns (ok: bool)
    requires Sentinel.IsSentinel(raw)
    modifies c`volumes, c`calls
    ensures ok <==> Sentinel.OrderOf(raw).MakeSwap? ==> env.swapMade(p, k)
    ensures At(c.volumes, device) == AfterSentinel(env, p, k, raw, At(old(c.volumes), device))
    ensures forall other | other != device :: At(c.volumes, other) == At(old(c.volumes), other)
    ensures c.calls == old(c.calls) + SentinelCalls(p, device, raw)
  {
    var meta := Sentinel.Unmarshal(raw);
    if meta.kind != Sentinel.SWAP {
      return true;
    }
    c.calls := c.calls + [Call.MakeSwap(p, device, meta.uuid)];
    ok := env.swapMade(p, k);
    c.volumes := c.volumes[device := if ok then Swap(SwapUuid(env, p, k, meta.uuid)) else env.wreck(p, k)];
  }

  method CarryOutRestore(c: Computer, env: Environment, pc: Partclone, expand: bool, p: nat, k: nat, device: string,
                         raw: seq<Byte>, readOk: bool)
    returns (ok: bool)
    modifies c`volumes, c`calls
    ensures ok <==> readOk && env.restored(p, k)
    ensures At(c.volumes, device) == AfterRestore(env, pc, expand, p, k, raw, readOk)
    ensures forall other | other != device :: At(c.volumes, other) == At(old(c.volumes), other)
    ensures c.calls == old(c.calls) + RestoreCalls(env, expand, p, k, device, readOk)
  {
    c.calls := c.calls + [Call.RestoreImage(p, device)];
    if !readOk || !env.restored(p, k) {
      c.volumes := c.volumes[device := env.wreck(p, k)];
      return false;
    }
    c.volumes := c.volumes[device := pc.restore(raw)];
    var restoredFs := env.blkid(p, k);
    if IsNtfs(restoredFs) {
      c.calls := c.calls + [ClearDirty(p, device)];
    }
    if expand {
      c.calls := c.calls + [Expand(p, device, restoredFs)];
      c.volumes := c.volumes[device := Expanded(env, expand, p, k, pc.restore(raw))];
    }
    ok := true;
  }

  /** One turn of the attempt loop; ok is whether it left with partErr == nil. */
  method Attempt(c: Computer, env: Environment, pc: Partclone, expand: bool, p: nat, k: nat, device: string,
                 offset: nat)
    returns (ok: bool)
    modifies c`volumes, c`calls
    ensures ok == AttemptSucceeds(env, p, k)
    ensures At(c.volumes, device) == VolumeAfter(env, pc, expand, p, k, At(old(c.volumes), device))
    ensures forall other | other != device :: At(c.volumes, other) == At(old(c.volumes), other)
    ensures c.calls == old(c.calls) + CallsOf(env, expand, p, k, device, offset)
  {
    c.calls := c.calls + [Download(p, offset)];
    var d := env.deliver(p, k);
    if d.NoResponse? {
      return false;
    }
    var body := new Readers.BodyReader(d.chunks, d.clean, d.early);
    var sentinel, raw, readOk := Readers.PeekThenReadAll(body);
    if !sentinel {
      ok := CarryOutRestore(c, env, pc, expand, p, k, device, raw, readOk);
    } else if readOk {
      ok := CarryOutSentinel(c, env, p, k, device, raw);
    } else {
      ok := false;
    }
  }

  // ---------------------------------------------------------------- one part

  /** The attempts made: up to the first success, three at most. */
  function Tries(env: Environment, p: nat): (n: nat)
    ensures 1 <= n <= ATTEMPTS
    ensures forall k | 0 <= k < n - 1 :: !AttemptSucceeds(env, p, k)
    ensures n < ATTEMPTS ==> AttemptSucceeds(env, p, n - 1)
  {
    if AttemptSucceeds(env, p, 0) then 1 else if AttemptSucceeds(env, p, 1) then 2 else 3
  }

  /** A part succeeds when one of its three attempts would. */
  predicate PartSucceeds(env: Environment, p: nat) {
    exists k :: 0 <= k < ATTEMPTS && AttemptSucceeds(env, p, k)
  }

  function VolumeAfterTries(env: Environment, pc: Partclone, expand: bool, p: nat, n: nat, was: Volume): Volume {
    if n == 0 then was
    else VolumeAfter(env, pc, expand, p, n - 1, VolumeAfterTries(env, pc, expand, p, n - 1, was))
  }

  /** The calls of the first n attempts, attempt by attempt. */
  function Attempts(env: Environment, expand: bool, p: nat, n: nat, device: string): (lists: seq<seq<Call>>)
    ensures |lists| == n
  {
    seq(n, k requires 0 <= k < n => CallsOf(env, expand, p, k, device, 0))
  }

  function CallsOfTries(env: Environment, expand: bool, p: nat, n: nat, device: string): seq<Call> {
    Flatten(Attempts(env, expand, p, n, device))
  }

  /** Where n attempts leave the computer: the device as the attempts in turn made it, every other
      volume as it was, and the calls of those attempts appended. */
  ghost predicate IsAfterTries(env: Environment, pc: Partclone, expand: bool, p: nat, n: nat, device: string,
                               volumes0: map<string, Volume>, calls0: seq<Call>,
                               volumes: map<string, Volume>, calls: seq<Call>) {
    && At(volumes, device) == VolumeAfterTries(env, pc, expand, p, n, At(volumes0, device))
    && (forall other | other != device :: At(volumes, other) == At(volumes0, other))
    && calls == calls0 + CallsOfTries(env, expand, p, n, device)
  }

  lemma OneMoreTry(env: Environment, pc: Partclone, expand: bool, p: nat, n: nat, device: string,
                   volumes0: map<string, Volume>, calls0: seq<Call>,
                   volumes: map<string, Volume>, calls: seq<Call>,
                   volumes': map<string, Volume>, calls': seq<Call>)
    requires IsAfterTries(env, pc, expand, p, n, device, volumes0, calls0, volumes, calls)
    requires At(volumes', device) == VolumeAfter(env, pc, expand, p, n, At(volumes, device))
    requires forall other | other != device :: At(volumes', other) == At(volumes, other)
    requires calls' == calls + CallsOf(env, expand, p, n, device, 0)
    ensures IsAfterTries(env, pc, expand, p, n + 1, device, volumes0, calls0, volumes', calls')
  {
    CallsOfOneMoreTry(env, expand, p, n, device);
    Associative(calls0, CallsOfTries(env, expand, p, n, device), CallsOf(env, expand, p, n, device, 0));
  }

  lemma CallsOfOneMoreTry(env: Environment, expand: bool, p: nat, n: nat, device: string)
    ensures CallsOfTries(env, expand, p, n + 1, device)
      == CallsOfTries(env, expand, p, n, device) + CallsOf(env, expand, p, n, device, 0)
  {
    var own := CallsOf(env, expand, p, n, device, 0);
    assert Attempts(env, expand, p, n + 1, device) == Attempts(env, expand, p, n, device) + [own];
    FlattenAppend(Attempts(env, expand, p, n, device), own);
  }

  /** The first n attempts all fail. */
  predicate NoneSucceeds(env: Environment, p: nat, n: nat) {
    forall k | 0 <= k < n :: !AttemptSucceeds(env, p, k)
  }

  lemma TriesIs(env: Environment, p: nat, n: nat)
    requires 1 <= n <= ATTEMPTS && NoneSucceeds(env, p, n - 1)
    requires n < ATTEMPTS ==> AttemptSucceeds(env, p, n - 1)
    ensures Tries(env, p) == n
    ensures AttemptSucceeds(env, p, n - 1) <==> PartSucceeds(env, p)
  {
    assert n == 2 || n == 3 ==> !AttemptSucceeds(env, p, 0);
    assert n == 3 ==> !AttemptSucceeds(env, p, 1);
  }

  /** What attempt k means once the attempts before it have failed: a success ends the tries, and so
      does the failure of the last one. */
  lemma TriesSoFar(env: Environment, p: nat, k: nat)
    requires k < ATTEMPTS && NoneSucceeds(env, p, k)
    ensures NoneSucceeds(env, p, k + 1) <==> !AttemptSucceeds(env, p, k)
    ensures AttemptSucceeds(env, p, k) || k + 1 == ATTEMPTS ==>
      Tries(env, p) == k + 1 && (AttemptSucceeds(env, p, k) <==> PartSucceeds(env, p))
  {
    if AttemptSucceeds(env, p, k) || k + 1 == ATTEMPTS {
      TriesIs(env, p, k + 1);
    }
  }

  /** One turn of the attempt loop, from where the attempts before it left the computer. */
  method NextTry(c: Computer, env: Environment, pc: Partclone, expand: bool, p: nat, k: nat, device: string,
                 offset: nat, ghost volumes0: map<string, Volume>, ghost calls0: seq<Call>)
    returns (ok: bool)
    requires offset == 0 && IsAfterTries(env, pc, expand, p, k, device, volumes0, calls0, c.volumes, c.calls)
    modifies c`volumes, c`calls
    ensures ok == AttemptSucceeds(env, p, k)
    ensures IsAfterTries(env, pc, expand, p, k + 1, device, volumes0, calls0, c.volumes, c.calls)
  {
    ghost var volumes, calls := c.volumes, c.calls;
    ok := Attempt(c, env, pc, expand, p, k, device, offset);
    OneMoreTry(env, pc, expand, p, k, device, volumes0, calls0, volumes, calls, c.volumes, c.calls);
  }

  /** The attempt loop: afterwards partErr is nil exactly when the last attempt made succeeded. */
  method DeployPart(c: Computer, env: Environment, pc: Partclone, expand: bool, p: nat, device: string)
    returns (partErr: bool)
    modifies c`volumes, c`calls
    ensures !partErr <==> AttemptSucceeds(env, p, Tries(env, p) - 1)
    ensures !partErr <==> PartSucceeds(env, p)
    ensures IsAfterTries(env, pc, expand, p, Tries(env, p), device, old(c.volumes), old(c.calls), c.volumes, c.calls)
  {
    partErr := false;
    var resumeOffset, attempt: nat := 0, 0;
    while attempt < ATTEMPTS
      invariant attempt <= ATTEMPTS && (attempt > 0 ==> partErr)
      invariant NoneSucceeds(env, p, attempt)
      invariant IsAfterTries(env, pc, expand, p, attempt, device, old(c.volumes), old(c.calls), c.volumes, c.calls)
    {
      var ok := NextTry(c, env, pc, expand, p, attempt, device, resumeOffset, old(c.volumes), old(c.calls));
      TriesSoFar(env, p, attempt);
      attempt := attempt + 1;
      partErr := !ok;
      if ok {
        break;
      }
    }
  }

  // ---------------------------------------------------------------- the whole action

  predicate Expands(resp: ImageMeta, p: nat) {
    resp.imageType == RESIZABLE && p !in resp.fixedSize
  }

  /** The calls on the parts 1..m, part by part. */
  function PartLists(env: Environment, resp: ImageMeta, disk: string, m: nat): (lists: seq<seq<Call>>)
    ensures |lists| == m
  {
    seq(m, i requires 0 <= i < m => CallsOfPart(env, resp, disk, i + 1))
  }

  function CallsThrough(env: Environment, resp: ImageMeta, disk: string, m: nat): seq<Call> {
    Flatten(PartLists(env, resp, disk, m))
  }

  function CallsOfPart(env: Environment, resp: ImageMeta, disk: string, p: nat): seq<Call> {
    CallsOfTries(env, Expands(resp, p), p, Tries(env, p), Disk.PartitionDevice(disk, p))
  }

  /** The device of part p is as its own attempts made it. */
  predicate IsPartDone(env: Environment, pc: Partclone, resp: ImageMeta, disk: string, p: nat,
                       volumes0: map<string, Volume>, volumes: map<string, Volume>) {
    var device := Disk.PartitionDevice(disk, p);
    At(volumes, device) == VolumeAfterTries(env, pc, Expands(resp, p), p, Tries(env, p), At(volumes0, device))
  }

  ghost predicate OthersKept(disk: string, m: nat, volumes0: map<string, Volume>, volumes: map<string, Volume>) {
    forall device | (forall p | 1 <= p <= m :: device != Disk.PartitionDevice(disk, p)) ::
      At(volumes, device) == At(volumes0, device)
  }

  /** Where the parts 1..m leave the computer: each of their devices done, and no other device touched. */
  ghost predicate IsAfterParts(env: Environment, pc: Partclone, resp: ImageMeta, disk: string, m: nat,
                               volumes0: map<string, Volume>, calls0: seq<Call>,
                               volumes: map<string, Volume>, calls: seq<Call>) {
    && (forall p | 1 <= p <= m :: IsPartDone(env, pc, resp, disk, p, volumes0, volumes))
    && OthersKept(disk, m, volumes0, volumes)
    && calls == calls0 + CallsThrough(env, resp, disk, m)
  }

  lemma OneMorePart(env: Environment, pc: Partclone, resp: ImageMeta, disk: string, m: nat,
                    volumes0: map<string, Volume>, calls0: seq<Call>,
                    volumes: map<string, Volume>, calls: seq<Call>,
                    volumes': map<string, Volume>, calls': seq<Call>)
    requires m >= 1 && IsAfterParts(env, pc, resp, disk, m - 1, volumes0, calls0, volumes, calls)
    requires IsAfterTries(env, pc, Expands(resp, m), m, Tries(env, m), Disk.PartitionDevice(disk, m),
                          volumes, calls, volumes', calls')
    ensures IsAfterParts(env, pc, resp, disk, m, volumes0, calls0, volumes', calls')
  {
    forall p | 1 <= p < m ensures Disk.PartitionDevice(disk, m) != Disk.PartitionDevice(disk, p) {
      Disk.DevicesDistinct(disk, m, p);
    }
    forall p | 1 <= p <= m ensures IsPartDone(env, pc, resp, disk, p, volumes0, volumes') {
      if p < m {
        assert IsPartDone(env, pc, resp, disk, p, volumes0, volumes);
      }
    }
    CallsOfOneMorePart(env, resp, disk, m);
    Associative(calls0, CallsThrough(env, resp, disk, m - 1), CallsOfPart(env, resp, disk, m));
  }

  lemma CallsOfOneMorePart(env: Environment, resp: ImageMeta, disk: string, m: nat)
    requires m >= 1
    ensures CallsThrough(env, resp, disk, m) == CallsThrough(env, resp, disk, m - 1) + CallsOfPart(env, resp, disk, m)
  {
    assert PartLists(env, resp, disk, m) == PartLists(env, resp, disk, m - 1) + [CallsOfPart(env, resp, disk, m)];
    FlattenAppend(PartLists(env, resp, disk, m - 1), CallsOfPart(env, resp, disk, m));
  }

  predicate TableArrives(env: Environment) {
    env.disk.Some? && Whole(env.table)
  }

  predicate SetupSucceeds(env: Environment) {
    TableArrives(env) && PartitionTable.StepsSucceed(PartitionTable.PlanOf(Body(env.table)), env.tableTools)
  }

  predicate AllPartsSucceed(env: Environment, n: nat) {
    forall p | 1 <= p <= n :: PartSucceeds(env, p)
  }

  /** readAll on the body of the partition table, however it arrives. */
  method ReadTable(chunks: seq<seq<Byte>>, clean: bool, early: bool) returns (table: seq<Byte>, ok: bool)
    ensures table == Flatten(chunks) && ok == clean
  {
    var body := new Readers.BodyReader(chunks, clean, early);
    var whole := new Readers.MultiReader(None, body);
    assert whole.Rest() == body.Rest();
    table, ok := Readers.ReadAll(whole);
  }

  /** partition.ExpandLast: any failure leaves the sizes of the table. */
  method ExpandLast(c: Computer, env: Environment)
    requires c.sizes == env.entries
    modifies c`sizes
    ensures c.sizes == EntriesAfter(env)
  {
    var last := Parted.LastPartitionNumber(env.parted);
    if last.Some? && env.resized {
      c.sizes := c.sizes[last.value := env.rest];
    }
  }

  /** One turn of the part loop, from where the parts before it left the computer. */
  method NextPart(c: Computer, env: Environment, pc: Partclone, resp: ImageMeta, disk: string, expand: bool, m: nat,
                  ghost volumes0: map<string, Volume>, ghost calls0: seq<Call>)
    returns (partErr: bool)
    requires m >= 1 && expand == Expands(resp, m)
    requires IsAfterParts(env, pc, resp, disk, m - 1, volumes0, calls0, c.volumes, c.calls)
    modifies c`volumes, c`calls
    ensures !partErr <==> PartSucceeds(env, m)
    ensures IsAfterParts(env, pc, resp, disk, m, volumes0, calls0, c.volumes, c.calls)
  {
    ghost var volumes, calls := c.volumes, c.calls;
    partErr := DeployPart(c, env, pc, expand, m, Disk.PartitionDevice(disk, m));
    OneMorePart(env, pc, resp, disk, m, volumes0, calls0, volumes, calls, c.volumes, c.calls);
  }

  lemma NoPartsYet(env: Environment, pc: Partclone, resp: ImageMeta, disk: string,
                   volumes: map<string, Volume>, calls: seq<Call>)
    ensures IsAfterParts(env, pc, resp, disk, 0, volumes, calls, volumes, calls)
  {
  }

  /** The parts in order, until one fails, which is reported: `reached` is the last one begun. */
  method DeployParts(c: Computer, server: Server, env: Environment, pc: Partclone, resp: ImageMeta, disk: string)
    returns (success: bool, reached: nat)
    modifies c`volumes, c`calls, server`completed, server`posts
    ensures ReportedFailure(
      old(server.completed), old(server.posts), server.completed, server.posts, env.report, !success)
    ensures success <==> AllPartsSucceed(env, resp.partCount)
    ensures reached <= resp.partCount && (success ==> reached == resp.partCount)
    ensures reached >= 1 ==> AllPartsSucceed(env, reached - 1)
    ensures !success ==> reached >= 1 && !PartSucceeds(env, reached)
    ensures IsAfterParts(env, pc, resp, disk, reached, old(c.volumes), old(c.calls), c.volumes, c.calls)
  {
    var fixedSet := set n | n in resp.fixedSize;
    var isResizable := resp.imageType == RESIZABLE;
    reached := 0;
    NoPartsYet(env, pc, resp, disk, c.volumes, c.calls);
    while reached < resp.partCount
      invariant reached <= resp.partCount
      invariant AllPartsSucceed(env, reached)
      invariant IsAfterParts(env, pc, resp, disk, reached, old(c.volumes), old(c.calls), c.volumes, c.calls)
      invariant server.completed == old(server.completed) && server.posts == old(server.posts)
    {
      reached := reached + 1;
      var expand := isResizable && reached !in fixedSet;
      var partErr := NextPart(c, env, pc, resp, disk, expand, reached, old(c.volumes), old(c.calls));
      OneMoreSuccess(env, reached, resp.partCount);
      if partErr {
        server.ReportFail(env.report);
        return false, reached;
      }
    }
    success := true;
  }

  lemma OneMoreSuccess(env: Environment, m: nat, n: nat)
    requires 1 <= m <= n && AllPartsSucceed(env, m - 1)
    ensures AllPartsSucceed(env, m) <==> PartSucceeds(env, m)
    ensures AllPartsSucceed(env, n) ==> PartSucceeds(env, m)
  {
  }

  /** What comes before the parts: the disk, the table and the growth of the last partition. A failure is
      reported, and leaves what the steps done so far made. */
  method SetUp(c: Computer, server: Server, env: Environment, resizable: bool) returns (ok: bool)
    modifies c`sizes, c.area, server`completed, server`posts
    ensures ReportedFailure(old(server.completed), old(server.posts), server.completed, server.posts, env.report, !ok)
    ensures ok <==> SetupSucceeds(env)
    ensures !TableArrives(env) ==> c.area.boot == old(c.area.boot) && c.area.table == old(c.area.table)
    ensures TableArrives(env) ==>
      var plan := PartitionTable.PlanOf(Body(env.table));
      && c.area.boot == PartitionTable.BootAfter(plan, env.tableTools, old(c.area.boot))
      && c.area.table == PartitionTable.TableAfter(plan, env.tableTools, old(c.area.table))
      && (ok ==> PartitionTable.Holds(plan, c.area.boot, c.area.table))
    ensures c.sizes == if !ok then old(c.sizes) else if resizable then EntriesAfter(env) else env.entries
  {
    if env.disk.None? {
      server.ReportFail(env.report);
      return false;
    }
    if env.table.NoResponse? {
      server.ReportFail(env.report);
      return false;
    }
    var table, readOk := ReadTable(env.table.chunks, env.table.clean, env.table.early);
    if !readOk {
      server.ReportFail(env.report);
      return false;
    }
    ok := PartitionTable.Restore(c.area, table, env.tableTools);
    if !ok {
      server.ReportFail(env.report);
      return;
    }
    c.sizes := env.entries;
    if resizable {
      ExpandLast(c, env);
    }
  }

  /** The deploy action. Success is reported exactly when the table was restored and every part
      succeeded; every way out makes one report; nothing beyond the parts begun is touched; and the
      error returned is that of the report of a success. */
  method Deploy(c: Computer, server: Server, env: Environment, pc: Partclone, resp: ImageMeta)
    returns (success: bool, reached: nat, err: bool)
    modifies c`volumes, c`sizes, c`calls, c.area, server`completed, server`posts
    ensures Reported(old(server.completed), old(server.posts), server.completed, server.posts, env.report, success)
    ensures err <==> success && !Client.Succeeds(env.report)
    ensures success <==> SetupSucceeds(env) && AllPartsSucceed(env, resp.partCount)
    ensures !SetupSucceeds(env) ==>
      reached == 0 && c.volumes == old(c.volumes) && c.sizes == old(c.sizes) && c.calls == old(c.calls)
    ensures !TableArrives(env) ==> c.area.boot == old(c.area.boot) && c.area.table == old(c.area.table)
    ensures TableArrives(env) ==>
      var plan := PartitionTable.PlanOf(Body(env.table));
      && c.area.boot == PartitionTable.BootAfter(plan, env.tableTools, old(c.area.boot))
      && c.area.table == PartitionTable.TableAfter(plan, env.tableTools, old(c.area.table))
      && (SetupSucceeds(env) ==> PartitionTable.Holds(plan, c.area.boot, c.area.table))
    ensures SetupSucceeds(env) ==>
      && reached <= resp.partCount && (success ==> reached == resp.partCount)
      && (reached >= 1 ==> AllPartsSucceed(env, reached - 1))
      && (!success ==> reached >= 1 && !PartSucceeds(env, reached))
      && c.sizes == (if resp.imageType == RESIZABLE then EntriesAfter(env) else env.entries)
      && IsAfterParts(env, pc, resp, env.disk.value, reached, old(c.volumes), old(c.calls), c.volumes, c.calls)
  {
    success, reached, err := false, 0, false;
    var ready := SetUp(c, server, env, resp.imageType == RESIZABLE);
    if !ready {
      return;
    }
    success, reached := DeployParts(c, server, env, pc, resp, env.disk.value);
    if !success {
      return;
    }
    var ok := server.Complete(env.report, true);
    err := !ok;
  }

  /** A failure leaves every later part as it was. */
  lemma LaterPartsUntouched(env: Environment, pc: Partclone, resp: ImageMeta, disk: string, reached: nat,
                            volumes0: map<string, Volume>, calls0: seq<Call>,
                            volumes: map<string, Volume>, calls: seq<Call>, q: nat)
    requires IsAfterParts(env, pc, resp, disk, reached, volumes0, calls0, volumes, calls) && q > reached
    ensures At(volumes, Disk.PartitionDevice(disk, q)) == At(volumes0, Disk.PartitionDevice(disk, q))
    ensures forall i | |calls0| <= i < |calls| :: calls[i].part != q
  {
    forall p | 1 <= p <= reached ensures Disk.PartitionDevice(disk, q) != Disk.PartitionDevice(disk, p) {
      Disk.DevicesDistinct(disk, q, p);
    }
    PartsAreTakenInOrder(env, resp, disk, reached, q);
    var own := CallsThrough(env, resp, disk, reached);
    assert forall i | |calls0| <= i < |calls| :: calls[i] == own[i - |calls0|];
  }

  /** What a try that fails leaves: a restore that broke off or went wrong and a mkswap that failed leave
      what the tool left; without a response, or with a sentinel cut short, nothing has been touched. */
  lemma FailedTryLeaves(env: Environment, pc: Partclone, expand: bool, p: nat, k: nat, was: Volume)
    requires !AttemptSucceeds(env, p, k)
    ensures var d := env.deliver(p, k);
      var untouched := d.NoResponse? || (Body(d) != [] && Body(d)[0] == '{' as Byte && !d.clean);
      VolumeAfter(env, pc, expand, p, k, was) == if untouched then was else env.wreck(p, k)
  {
  }

  // ---------------------------------------------------------------- the dirty bit

  /** What follows a restore that works: the dirty bit is cleared exactly when blkid then finds ntfs, in any
      case of its letters, and the filesystem expanded exactly when it is meant to be. */
  lemma CallsAfterRestore(env: Environment, expand: bool, p: nat, k: nat, device: string)
    requires AttemptSucceeds(env, p, k) && !Sentinel.IsSentinel(Body(env.deliver(p, k)))
    ensures var calls := CallsOf(env, expand, p, k, device, 0);
      && calls[..2] == [Download(p, 0), Call.RestoreImage(p, device)]
      && (ClearDirty(p, device) in calls <==> GoText.Spells(env.blkid(p, k), "ntfs"))
      && (Expand(p, device, env.blkid(p, k)) in calls <==> expand)
  {
    GoText.ToLowerIff(env.blkid(p, k), "ntfs");
    var calls := CallsOf(env, expand, p, k, device, 0);
    var ntfs := IsNtfs(env.blkid(p, k));
    assert calls == [Download(p, 0), Call.RestoreImage(p, device)]
      + (if ntfs then [ClearDirty(p, device)] else []) + (if expand then [Expand(p, device, env.blkid(p, k))] else []);
  }

  /** A sentinel that arrives whole takes one more call, a mkswap with its UUID, or none if it is no swap. */
  lemma CallsAfterSentinel(env: Environment, expand: bool, p: nat, k: nat, device: string)
    requires Whole(env.deliver(p, k)) && Sentinel.IsSentinel(Body(env.deliver(p, k)))
    ensures var meta := Sentinel.Unmarshal(Body(env.deliver(p, k)));
      CallsOf(env, expand, p, k, device, 0) ==
        if meta.kind == "swap" then [Download(p, 0), Call.MakeSwap(p, device, meta.uuid)] else [Download(p, 0)]
  {
  }

  // ---------------------------------------------------------------- sizes

  /** The filesystems a resize tool can make as large as their partition, by what blkid calls them. */
  lemma GrowsByName(env: Environment, p: nat, k: nat, v: Volume)
    requires v.Filesystem?
    ensures var fs := env.blkid(p, k);
      var known := GoText.Spells(fs, "ntfs") || Resize.IsExt(fs) || GoText.Spells(fs, "btrfs")
        || GoText.Spells(fs, "xfs") || GoText.Spells(fs, "f2fs");
      Expanded(env, true, p, k, v) ==
        if known && env.grown(p, k) && p in EntriesAfter(env) then v.(size := EntriesAfter(env)[p]) else v
  {
    Resize.ToolByName(env.blkid(p, k));
    Resize.ExpandToolByName(env.blkid(p, k));
  }

  /** The partition sizes change at one number at most, and not at all unless parted lists a partition and
      resizes it. */
  lemma EntriesKept(env: Environment, n: int)
    ensures env.parted.None? || !env.resized ==> EntriesAfter(env) == env.entries
    ensures env.parted.Some?
      && (forall i | 0 <= i < |Parted.NumbersOf(GoText.Split(env.parted.value, '\n'))| ::
            var number := Parted.NumbersOf(GoText.Split(env.parted.value, '\n'))[i];
            number.Some? ==> number.value <= 0)
      ==> EntriesAfter(env) == env.entries
    ensures Parted.Last(env.parted) != Some(n) ==>
      (n in EntriesAfter(env) <==> n in env.entries)
      && (n in env.entries ==> EntriesAfter(env)[n] == env.entries[n])
  {
    if env.parted.Some? {
      Parted.MaxOfIsMax(Parted.NumbersOf(GoText.Split(env.parted.value, '\n')));
    }
  }

  lemma RestoredVolume(env: Environment, pc: Partclone, expand: bool, p: nat, was: Volume, image: Volume)
    requires PartSucceeds(env, p) && !Sentinel.IsSentinel(Body(env.deliver(p, Tries(env, p) - 1)))
    requires image == pc.restore(Body(env.deliver(p, Tries(env, p) - 1))) && image.Filesystem?
    ensures VolumeAfterTries(env, pc, expand, p, Tries(env, p), was)
      == Expanded(env, expand, p, Tries(env, p) - 1, image)
  {
    TriesIs(env, p, Tries(env, p));
  }

  /** After a resizable deploy a filesystem that is not fixed-size is as large as its partition,
      wherever a tool for it exists and did not fail; else it has the size it was captured with. */
  lemma ExpandedFillsPartition(env: Environment, pc: Partclone, resp: ImageMeta, disk: string, m: nat,
                               volumes0: map<string, Volume>, calls0: seq<Call>,
                               volumes: map<string, Volume>, calls: seq<Call>, p: nat, image: Volume)
    requires IsAfterParts(env, pc, resp, disk, m, volumes0, calls0, volumes, calls) && 1 <= p <= m
    requires PartSucceeds(env, p) && !Sentinel.IsSentinel(Body(env.deliver(p, Tries(env, p) - 1)))
    requires image == pc.restore(Body(env.deliver(p, Tries(env, p) - 1))) && image.Filesystem?
    ensures At(volumes, Disk.PartitionDevice(disk, p)) == image.(size :=
      if Expands(resp, p) && CanFill(env, p, Tries(env, p) - 1) then EntriesAfter(env)[p] else image.size)
  {
    RestoredVolume(env, pc, Expands(resp, p), p, At(volumes0, Disk.PartitionDevice(disk, p)), image);
    assert IsPartDone(env, pc, resp, disk, p, volumes0, volumes);
  }

  /** With parted's own listing the partition that is grown is the one of the largest number, and it
      alone: it takes the rest of the disk, the others keep the sizes of the table. */
  lemma LargestNumberTakesRest(env: Environment, header: seq<string>, records: seq<Parted.Record>, p: int)
    requires forall i | 0 <= i < |header| :: Parted.IsHeader(header[i])
    requires forall i | 0 <= i < |records| :: Parted.Listable(records[i])
    requires env.parted == Some(Parted.Listing(header, records)) && env.resized
    requires p in env.entries && exists i :: 0 <= i < |records| && records[i].number == p
    ensures p in EntriesAfter(env)
    ensures EntriesAfter(env)[p] ==
      if forall i | 0 <= i < |records| :: records[i].number <= p then env.rest else env.entries[p]
  {
    var numbers := Parted.NumbersOf(GoText.Split(env.parted.value, '\n'));
    Parted.MaxOfIsMax(numbers);
    Parted.LastOfListing(header, records, Parted.MaxOf(numbers));
  }

  /** A part counts as done without anything being written exactly when its body arrives whole, starts
      with a brace and does not decode to a swap sentinel: malformed JSON included. */
  lemma SilentSkipIff(env: Environment, expand: bool, p: nat, k: nat, device: string)
    ensures AttemptSucceeds(env, p, k) && CallsOf(env, expand, p, k, device, 0) == [Download(p, 0)] <==>
      && Whole(env.deliver(p, k)) && Sentinel.IsSentinel(Body(env.deliver(p, k)))
      && Sentinel.Unmarshal(Body(env.deliver(p, k))).kind != Sentinel.SWAP
  {
    var calls := CallsOf(env, expand, p, k, device, 0);
    assert |calls| > 1 ==> calls != [Download(p, 0)];
  }

  // ---------------------------------------------------------------- what the calls say

  predicate OnPart(call: Call, p: nat) {
    call.part == p && (call.Download? ==> call.offset == 0)
  }

  function Downloads(calls: seq<Call>, p: nat): nat {
    if calls == [] then 0
    else (if calls[0].Download? && calls[0].part == p then 1 else 0) + Downloads(calls[1..], p)
  }

  lemma {:induction false} DownloadsAppend(a: seq<Call>, b: seq<Call>, p: nat)
    ensures Downloads(a + b, p) == Downloads(a, p) + Downloads(b, p)
  {
    if a == [] {
      assert a + b == b;
    } else {
      assert (a + b)[1..] == a[1..] + b;
      DownloadsAppend(a[1..], b, p);
    }
  }

  lemma AttemptCalls(env: Environment, expand: bool, p: nat, k: nat, device: string, q: nat)
    ensures AllOnPart(CallsOf(env, expand, p, k, device, 0), p)
    ensures Downloads(CallsOf(env, expand, p, k, device, 0), q) == if p == q then 1 else 0
  {
    var calls := CallsOf(env, expand, p, k, device, 0);
    assert calls == [Download(p, 0)] + calls[1..];
    NoDownloads(calls[1..], q);
  }

  lemma {:induction false} NoDownloads(calls: seq<Call>, q: nat)
    requires forall call | call in calls :: !call.Download?
    ensures Downloads(calls, q) == 0
  {
    if calls != [] {
      NoDownloads(calls[1..], q);
    }
  }

  predicate AllOnPart(calls: seq<Call>, p: nat) {
    forall i | 0 <= i < |calls| :: OnPart(calls[i], p)
  }

  lemma {:induction false} FlattenOnPart(lists: seq<seq<Call>>, p: nat, q: nat)
    requires forall k | 0 <= k < |lists| :: AllOnPart(lists[k], p)
    requires forall k | 0 <= k < |lists| :: Downloads(lists[k], q) == if p == q then 1 else 0
    ensures AllOnPart(Flatten(lists), p)
    ensures Downloads(Flatten(lists), q) == if p == q then |lists| else 0
  {
    if lists != [] {
      FlattenOnPart(lists[1..], p, q);
      DownloadsAppend(lists[0], Flatten(lists[1..]), q);
    }
  }

  lemma TriesCalls(env: Environment, expand: bool, p: nat, n: nat, device: string, q: nat)
    ensures AllOnPart(CallsOfTries(env, expand, p, n, device), p)
    ensures Downloads(CallsOfTries(env, expand, p, n, device), q) == if p == q then n else 0
  {
    var lists := Attempts(env, expand, p, n, device);
    forall k | 0 <= k < n
      ensures AllOnPart(lists[k], p) && Downloads(lists[k], q) == if p == q then 1 else 0
    {
      AttemptCalls(env, expand, p, k, device, q);
    }
    FlattenOnPart(lists, p, q);
  }

  /** Every call is on one of the parts 1..m, downloads are from byte 0, and no part is touched again
      after a later one. */
  predicate InOrder(calls: seq<Call>, m: nat) {
    && (forall i | 0 <= i < |calls| :: 1 <= calls[i].part <= m && OnPart(calls[i], calls[i].part))
    && (forall i, j | 0 <= i < j < |calls| :: calls[i].part <= calls[j].part)
  }

  /** Calls on earlier parts followed by calls on one part. */
  lemma AppendInOrder(before: seq<Call>, own: seq<Call>, m: nat)
    requires m >= 1 && InOrder(before, m - 1) && AllOnPart(own, m)
    ensures InOrder(before + own, m)
  {
    var calls := before + own;
    forall i | 0 <= i < |calls| ensures 1 <= calls[i].part <= m && OnPart(calls[i], calls[i].part) {
      if i >= |before| {
        assert calls[i] == own[i - |before|];
      }
    }
    forall i, j | 0 <= i < j < |calls| ensures calls[i].part <= calls[j].part {
      if j >= |before| {
        assert calls[j] == own[j - |before|];
      }
    }
  }

  lemma {:induction false} FlattenInOrder(lists: seq<seq<Call>>, q: nat)
    requires forall i | 0 <= i < |lists| :: AllOnPart(lists[i], i + 1)
    requires forall i | 0 <= i < |lists| && i + 1 != q :: Downloads(lists[i], q) == 0
    ensures InOrder(Flatten(lists), |lists|)
    ensures Downloads(Flatten(lists), q) == if 1 <= q <= |lists| then Downloads(lists[q - 1], q) else 0
  {
    if lists != [] {
      var m := |lists|;
      var init, last := lists[..m - 1], lists[m - 1];
      assert lists == init + [last] && forall i | 0 <= i < m - 1 :: init[i] == lists[i];
      FlattenInOrder(init, q);
      FlattenAppend(init, last);
      AppendInOrder(Flatten(init), last, m);
      DownloadsAppend(Flatten(init), last, q);
    }
  }

  /** Over a whole run: parts are taken strictly one after the other, every download starts at byte
      0, and a part begun is downloaded once for each of its tries, three times at most. */
  lemma PartsAreTakenInOrder(env: Environment, resp: ImageMeta, disk: string, m: nat, q: nat)
    ensures InOrder(CallsThrough(env, resp, disk, m), m)
    ensures Downloads(CallsThrough(env, resp, disk, m), q) == (if 1 <= q <= m then Tries(env, q) else 0) <= 3
    ensures 1 <= q <= m && !PartSucceeds(env, q) ==> Downloads(CallsThrough(env, resp, disk, m), q) == 3
  {
    var lists := PartLists(env, resp, disk, m);
    forall i | 0 <= i < m
      ensures AllOnPart(lists[i], i + 1) && Downloads(lists[i], q) == if i + 1 == q then Tries(env, q) else 0
    {
      TriesCalls(env, Expands(resp, i + 1), i + 1, Tries(env, i + 1), Disk.PartitionDevice(disk, i + 1), q);
    }
    FlattenInOrder(lists, q);
  }
}
