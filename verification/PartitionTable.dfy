/** Part 0 of an image: the partition table as a JSON blob, made by Backup and written by Restore. */
module PartitionTable {
  import opened Wrappers
  import Base64
  import GoText
  import Json
  import Utf8

  const BOOT_CODE: nat := 446
  const SECTOR: nat := 512

  datatype TableBlob = TableBlob(kind: string, sgdisk: string, sfdisk: string, mbr: string)

  function FieldsOf(tb: TableBlob): (fields: seq<(string, string)>)
    ensures fields != []
  {
    [("type", tb.kind)] + Json.OmitEmpty("sgdisk", tb.sgdisk)
    + Json.OmitEmpty("sfdisk", tb.sfdisk) + Json.OmitEmpty("mbr", tb.mbr)
  }

  function Marshal(tb: TableBlob): seq<Byte> {
    Utf8.Encode(Json.PrintStruct(FieldsOf(tb)))
  }

  const FIELD_NAMES: seq<string> := ["type", "sgdisk", "sfdisk", "mbr"]

  /** json.Unmarshal into a tableBlob; none when it returns an error. */
  function Unmarshal(raw: seq<Byte>): Option<TableBlob> {
    match Json.Parse(raw)
    case Some(Null) => Some(TableBlob("", "", "", ""))
    case Some(Object(members)) =>
      if Json.Mistyped(members, FIELD_NAMES) then None
      else Some(TableBlob(Json.StringField(members, "type"), Json.StringField(members, "sgdisk"),
                          Json.StringField(members, "sfdisk"), Json.StringField(members, "mbr")))
    case _ => None
  }

  // ---------------------------------------------------------------- backup

  function BackupGpt(backup: seq<Byte>): seq<Byte> {
    Marshal(TableBlob("gpt", Base64.Encode(backup), "", ""))
  }

  function BackupMbr(dump: string, sector: seq<Byte>): seq<Byte> {
    Marshal(TableBlob("mbr", "", dump, Base64.Encode(sector)))
  }

  /** DetectTableType: only "dos" is MBR; anything else, and a failing blkid, counts as GPT. */
  predicate IsMbr(pttype: Option<string>) {
    pttype.Some? && GoText.TrimSpace(pttype.value) == "dos"
  }

  /** The buffer the first sector is read into: a short read leaves zeros behind it. */
  function SectorOf(read: seq<Byte>): (sector: seq<Byte>)
    requires |read| <= SECTOR
    ensures |sector| == SECTOR && read <= sector
  {
    read + seq(SECTOR - |read|, _ => 0)
  }

  /** What blkid, sgdisk, sfdisk and the read of the first sector come back with. */
  datatype BackupTools = BackupTools(
    pttype: Option<string>, sgdisk: Option<seq<Byte>>, dump: Option<string>, read: Option<seq<Byte>>)

  /** At most a sector can be read into a buffer of one. */
  predicate ReadFits(tools: BackupTools) {
    tools.read.Some? ==> |tools.read.value| <= SECTOR
  }

  /** Whether the tools a backup needs succeed. */
  predicate BackupSucceeds(tools: BackupTools) {
    if IsMbr(tools.pttype) then tools.dump.Some? && tools.read.Some? else tools.sgdisk.Some?
  }

  /** Backup: none when one of the tools it needs fails. */
  function Backup(tools: BackupTools): (blob: Option<seq<Byte>>)
    requires ReadFits(tools)
    ensures blob.Some? <==> BackupSucceeds(tools)
  {
    if IsMbr(tools.pttype) then
      if tools.dump.Some? && tools.read.Some? then Some(BackupMbr(tools.dump.value, SectorOf(tools.read.value)))
      else None
    else if tools.sgdisk.Some? then Some(BackupGpt(tools.sgdisk.value))
    else None
  }

  /** The table backed up: the one sgdisk saved, or the boot code of the sector and sfdisk's dump. */
  function BackedUp(tools: BackupTools): Plan
    requires ReadFits(tools) && BackupSucceeds(tools)
  {
    if IsMbr(tools.pttype) then WriteMbr(SectorOf(tools.read.value)[..BOOT_CODE], tools.dump.value)
    else LoadGpt(tools.sgdisk.value)
  }

  // ---------------------------------------------------------------- restore

  /** What a blob asks for. */
  datatype Plan = LoadGpt(backup: seq<Byte>) | WriteMbr(boot: seq<Byte>, dump: string) | Reject

  function GptPlan(tb: TableBlob): Plan {
    match Base64.Decode(tb.sgdisk)
    case Some(backup) => LoadGpt(backup)
    case None => Reject
  }

  function MbrPlan(tb: TableBlob): Plan {
    match Base64.Decode(tb.mbr)
    case Some(sector) => if |sector| < BOOT_CODE then Reject else WriteMbr(sector[..BOOT_CODE], tb.sfdisk)
    case None => Reject
  }

  function PlanOf(blob: seq<Byte>): Plan {
    match Unmarshal(blob)
    case None => LoadGpt(blob)
    case Some(tb) => if tb.kind == "mbr" then MbrPlan(tb) else GptPlan(tb)
  }

  datatype Table = Gpt(backup: seq<Byte>) | Dos(dump: string) | Zapped | Damaged

  /** The part of a disk in front of its partitions. */
  class TableArea {
    var boot: seq<Byte>    // boot loader code
    var table: Table

    constructor (boot: seq<Byte>, table: Table)
      ensures this.boot == boot && this.table == table
    {
      this.boot, this.table := boot, table;
    }
  }

  /** Which of the external steps of a restore succeed, and what they leave of the boot code: sgdisk's
      zap and load as they please, and a write that fails. */
  datatype RestoreTools = RestoreTools(
    zap: bool, zapBoot: seq<Byte>, tempFile: bool, tempWrite: bool, load: bool, loadBoot: seq<Byte>,
    open: bool, write: bool, torn: seq<Byte>, sfdisk: bool)

  predicate StepsSucceed(plan: Plan, tools: RestoreTools) {
    match plan
    case LoadGpt(_) => tools.tempFile && tools.tempWrite && tools.load
    case WriteMbr(_, _) => tools.open && tools.write && tools.sfdisk
    case Reject => false
  }

  predicate Holds(plan: Plan, boot: seq<Byte>, table: Table) {
    match plan
    case LoadGpt(backup) => table == Gpt(backup)
    case WriteMbr(code, dump) => boot == code && table == Dos(dump)
    case Reject => false
  }

  /** What a restore leaves of boot code and table, wherever it stops. */
  function BootAfter(plan: Plan, tools: RestoreTools, boot: seq<Byte>): seq<Byte> {
    match plan
    case LoadGpt(_) =>
      if tools.tempFile && tools.tempWrite then tools.loadBoot else if tools.zap then tools.zapBoot else boot
    case WriteMbr(code, _) =>
      if !tools.open then boot else if tools.write then code else tools.torn
    case Reject => boot
  }

  function TableAfter(plan: Plan, tools: RestoreTools, table: Table): Table {
    match plan
    case LoadGpt(backup) =>
      if !tools.tempFile || !tools.tempWrite then (if tools.zap then Zapped else table)
      else if tools.load then Gpt(backup) else Damaged
    case WriteMbr(_, dump) =>
      // The old table stays until sfdisk runs.
      if !tools.open || !tools.write then table else if tools.sfdisk then Dos(dump) else Damaged
    case Reject => table
  }

  /** When all steps succeed the disk holds what the plan asked for. The boot code changes only once
      sgdisk has run or the disk is open for writing, and a restore that fails leaves the old table,
      none, or a damaged one. */
  lemma RestoreHolds(plan: Plan, tools: RestoreTools, boot: seq<Byte>, table: Table)
    ensures StepsSucceed(plan, tools) ==> Holds(plan, BootAfter(plan, tools, boot), TableAfter(plan, tools, table))
    ensures BootAfter(plan, tools, boot) != boot ==>
      match plan
      case LoadGpt(_) => tools.zap || (tools.tempFile && tools.tempWrite)
      case WriteMbr(_, _) => tools.open
      case Reject => false
    ensures TableAfter(plan, tools, table) != table && !StepsSucceed(plan, tools) ==>
      TableAfter(plan, tools, table)
        == if plan.LoadGpt? && !(tools.tempFile && tools.tempWrite) then Zapped else Damaged
    // The old table is gone once zap has worked, a load has begun, or sfdisk has run.
    ensures TableAfter(plan, tools, table) == table && table != Zapped && table != Damaged ==>
      match plan
      case LoadGpt(backup) => table == Gpt(backup) || (!tools.zap && !(tools.tempFile && tools.tempWrite))
      case WriteMbr(_, dump) => table == Dos(dump) || !tools.open || !tools.write
      case Reject => true
    ensures StepsSucceed(plan, tools) <==>
      match plan
      case LoadGpt(_) => tools.tempFile && tools.tempWrite && tools.load
      case WriteMbr(_, _) => tools.open && tools.write && tools.sfdisk
      case Reject => false
  {
  }

  method RestoreSgdiskRaw(area: TableArea, backup: seq<Byte>, tools: RestoreTools) returns (ok: bool)
    modifies area
    ensures ok <==> StepsSucceed(LoadGpt(backup), tools)
    ensures area.boot == BootAfter(LoadGpt(backup), tools, old(area.boot))
    ensures area.table == TableAfter(LoadGpt(backup), tools, old(area.table))
  {
    // A failed zap is ignored.
    if tools.zap {
      area.boot, area.table := tools.zapBoot, Zapped;
    }
    if !tools.tempFile || !tools.tempWrite {
      return false;
    }
    area.boot, area.table := tools.loadBoot, if tools.load then Gpt(backup) else Damaged;
    ok := tools.load;
  }

  method RestoreGpt(area: TableArea, tb: TableBlob, tools: RestoreTools) returns (ok: bool)
    modifies area
    ensures ok <==> StepsSucceed(GptPlan(tb), tools)
    ensures area.boot == BootAfter(GptPlan(tb), tools, old(area.boot))
    ensures area.table == TableAfter(GptPlan(tb), tools, old(area.table))
  {
    var backup := Base64.Decode(tb.sgdisk);
    if backup.None? {
      return false;
    }
    ok := RestoreSgdiskRaw(area, backup.value, tools);
  }

  method RestoreMbr(area: TableArea, tb: TableBlob, tools: RestoreTools) returns (ok: bool)
    modifies area
    ensures ok <==> StepsSucceed(MbrPlan(tb), tools)
    ensures area.boot == BootAfter(MbrPlan(tb), tools, old(area.boot))
    ensures area.table == TableAfter(MbrPlan(tb), tools, old(area.table))
  {
    var sector := Base64.Decode(tb.mbr);
    if sector.None? || |sector.value| < BOOT_CODE || !tools.open {
      return false;
    }
    if !tools.write {
      area.boot := tools.torn;
      return false;
    }
    area.boot := sector.value[..BOOT_CODE];
    area.table := if tools.sfdisk then Dos(tb.sfdisk) else Damaged;
    ok := tools.sfdisk;
  }

  /** Restore succeeds exactly when the blob is readable and every step it needs succeeds, and then
      the disk holds what the blob asked for; a failed one leaves what the steps done so far made. */
  method Restore(area: TableArea, blob: seq<Byte>, tools: RestoreTools) returns (ok: bool)
    modifies area
    ensures ok <==> StepsSucceed(PlanOf(blob), tools)
    ensures ok ==> Holds(PlanOf(blob), area.boot, area.table)
    ensures area.boot == BootAfter(PlanOf(blob), tools, old(area.boot))
    ensures area.table == TableAfter(PlanOf(blob), tools, old(area.table))
  {
    RestoreHolds(PlanOf(blob), tools, area.boot, area.table);
    match Unmarshal(blob) {
      case None => ok := RestoreSgdiskRaw(area, blob, tools);
      case Some(tb) =>
        if tb.kind == "mbr" {
          ok := RestoreMbr(area, tb, tools);
        } else {
          ok := RestoreGpt(area, tb, tools);
        }
    }
  }

  // ---------------------------------------------------------------- round trip

  lemma NamesFold()
    ensures Json.FoldName("type") == "type" && Json.FoldName("sgdisk") == "sgdisk"
    ensures Json.FoldName("sfdisk") == "sfdisk" && Json.FoldName("mbr") == "mbr"
  {
  }

  lemma FieldAfter(tb: TableBlob, name: string)
    requires name in FIELD_NAMES
    ensures Json.StringField(Json.MembersOf(FieldsOf(tb)), name)
      == if name == "type" then tb.kind else if name == "sgdisk" then tb.sgdisk
         else if name == "sfdisk" then tb.sfdisk else tb.mbr
  {
    NamesFold();
    var f1 := [("type", tb.kind)];
    assert Json.MembersOf(f1) == [] + [Json.Member("type", Json.Text(tb.kind))];
    Json.StringFieldAppend([], "type", tb.kind, name);
    var f2 := f1 + Json.OmitEmpty("sgdisk", tb.sgdisk);
    Json.OptionalField(f1, "sgdisk", tb.sgdisk, name);
    var f3 := f2 + Json.OmitEmpty("sfdisk", tb.sfdisk);
    Json.OptionalField(f2, "sfdisk", tb.sfdisk, name);
    Json.OptionalField(f3, "mbr", tb.mbr, name);
  }

  lemma MarshalRoundTrip(tb: TableBlob)
    ensures Unmarshal(Marshal(tb)) == Some(tb)
  {
    Json.PrintedStructParses(FieldsOf(tb));
    FieldsRead(tb, Json.MembersOf(FieldsOf(tb)));
  }

  lemma FieldsRead(tb: TableBlob, members: seq<Json.Member>)
    requires members == Json.MembersOf(FieldsOf(tb))
    ensures Json.StringField(members, "type") == tb.kind && Json.StringField(members, "sgdisk") == tb.sgdisk
    ensures Json.StringField(members, "sfdisk") == tb.sfdisk && Json.StringField(members, "mbr") == tb.mbr
    ensures !Json.Mistyped(members, FIELD_NAMES)
  {
    FieldAfter(tb, "type");
    FieldAfter(tb, "sgdisk");
    FieldAfter(tb, "sfdisk");
    FieldAfter(tb, "mbr");
  }

  lemma GptRoundTrip(backup: seq<Byte>)
    ensures PlanOf(BackupGpt(backup)) == LoadGpt(backup)
  {
    MarshalRoundTrip(TableBlob("gpt", Base64.Encode(backup), "", ""));
    Base64.DecodeEncode(backup);
  }

  lemma MbrRoundTrip(dump: string, sector: seq<Byte>)
    requires |sector| == SECTOR
    ensures PlanOf(BackupMbr(dump, sector)) == WriteMbr(sector[..BOOT_CODE], dump)
  {
    MarshalRoundTrip(TableBlob("mbr", "", dump, Base64.Encode(sector)));
    Base64.DecodeEncode(sector);
  }

  /** Restore takes the path of the table Backup found, and hands on the identical bytes: the sgdisk
      backup whatever it contains, or the boot code of the sector read and the whole sfdisk dump. */
  lemma BackupRestores(tools: BackupTools)
    requires ReadFits(tools) && BackupSucceeds(tools)
    ensures PlanOf(Backup(tools).value) == BackedUp(tools)
  {
    if IsMbr(tools.pttype) {
      MbrRoundTrip(tools.dump.value, SectorOf(tools.read.value));
    } else {
      GptRoundTrip(tools.sgdisk.value);
    }
  }

  /** What GptPlan loads is shorter than the blob it came in. */
  lemma GptIsShorter(blob: seq<Byte>)
    requires Unmarshal(blob).Some? && GptPlan(Unmarshal(blob).value).LoadGpt?
    ensures |GptPlan(Unmarshal(blob).value).backup| < |blob|
  {
    Base64.DecodeLength(Unmarshal(blob).value.sgdisk);
    if Json.Parse(blob).value.Object? {
      Json.FieldIsShorter(blob, "sgdisk");
    }
  }

  /** A blob is loaded as it stands, as a raw sgdisk backup from before the JSON envelope, exactly when
      Unmarshal fails on it: it is not JSON, or a value of another type, or one of its fields is. */
  lemma LegacyBackup(blob: seq<Byte>)
    ensures PlanOf(blob) == LoadGpt(blob) <==> Unmarshal(blob).None?
    ensures Json.Parse(blob).None? ==> PlanOf(blob) == LoadGpt(blob)
  {
    if Unmarshal(blob).Some? && GptPlan(Unmarshal(blob).value).LoadGpt? {
      GptIsShorter(blob);
    }
  }

  // ---------------------------------------------------------------- which way a table goes

  /** When blkid prints dos, with any space around it, a backup needs the dump and the sector and no more;
      and what it asks a restore for is the first 446 bytes read, zeros where fewer were, and the dump. */
  lemma DosGoesByMbr(tools: BackupTools, left: string, right: string)
    requires ReadFits(tools) && GoText.AllSpace(left) && GoText.AllSpace(right)
    requires tools.pttype == Some(left + "dos" + right)
    ensures Backup(tools).Some? <==> tools.dump.Some? && tools.read.Some?
    ensures Backup(tools).Some? ==>
      var plan := PlanOf(Backup(tools).value);
      && plan.WriteMbr? && plan.dump == tools.dump.value && |plan.boot| == 446
      && forall i | 0 <= i < 446 :: plan.boot[i] == if i < |tools.read.value| then tools.read.value[i] else 0
  {
    assert "dos"[0] == 'd' && "dos"[2] == 's';
    GoText.TrimSpaceOfPadded(left, "dos", right);
    if Backup(tools).Some? {
      BackupRestores(tools);
    }
  }

  /** Whatever else it prints, and when it fails, a backup needs sgdisk alone, and a restore is asked for
      sgdisk's bytes. */
  lemma OthersGoByGpt(tools: BackupTools)
    requires ReadFits(tools)
    requires tools.pttype.Some? ==> forall left, right ::
      GoText.AllSpace(left) && GoText.AllSpace(right) ==> tools.pttype.value != left + "dos" + right
    ensures Backup(tools).Some? <==> tools.sgdisk.Some?
    ensures Backup(tools).Some? ==> PlanOf(Backup(tools).value) == LoadGpt(tools.sgdisk.value)
  {
    if tools.pttype.Some? {
      var left, right := GoText.TrimSpaceSplits(tools.pttype.value);
    }
    if Backup(tools).Some? {
      BackupRestores(tools);
    }
  }

  /** A blob goes the MBR way exactly when its type is mbr; for any other type, the empty one included, what
      it holds of sgdisk is loaded. */
  lemma TypeDecides(tb: TableBlob)
    ensures PlanOf(Marshal(tb)) == if tb.kind == "mbr" then MbrPlan(tb) else GptPlan(tb)
    ensures tb.kind != "mbr" && tb.sgdisk == "" ==> PlanOf(Marshal(tb)) == LoadGpt([])
    ensures tb.kind == "mbr" && tb.mbr == "" ==> PlanOf(Marshal(tb)).Reject?
    ensures tb.kind == "mbr" && Base64.Decode(tb.mbr).Some? ==>
      var sector := Base64.Decode(tb.mbr).value;
      PlanOf(Marshal(tb)) == if |sector| < 446 then Reject else WriteMbr(sector[..446], tb.sfdisk)
  {
    MarshalRoundTrip(tb);
    Base64.DecodeEncode([]);
    assert Base64.Encode([]) == "";
  }

  /** The sector of an MBR backup is one of 512 bytes. */
  lemma SectorIsWhole(tools: BackupTools)
    requires ReadFits(tools) && IsMbr(tools.pttype) && BackupSucceeds(tools)
    ensures var tb := Unmarshal(Backup(tools).value);
      && tb.Some? && tb.value.kind == "mbr" && tb.value.sfdisk == tools.dump.value
      && Base64.Decode(tb.value.mbr).Some? && |Base64.Decode(tb.value.mbr).value| == 512
  {
    var sector := SectorOf(tools.read.value);
    MarshalRoundTrip(TableBlob("mbr", "", tools.dump.value, Base64.Encode(sector)));
    Base64.DecodeEncode(sector);
  }

  /** JSON that is no blob: null stands for the empty one, a value of any other type or a field that is
      neither a string nor null makes the whole a raw backup. */
  lemma OddBlobs(blob: seq<Byte>)
    requires Json.Parse(blob).Some?
    ensures Json.Parse(blob).value == Json.Null ==> PlanOf(blob) == LoadGpt([])
    ensures !Json.Parse(blob).value.Null? && !Json.Parse(blob).value.Object? ==> PlanOf(blob) == LoadGpt(blob)
    ensures Json.Parse(blob).value.Object? ==>
      forall i | 0 <= i < |Json.Parse(blob).value.members| ::
        var m := Json.Parse(blob).value.members[i];
        (GoText.Spells(m.key, "type") || GoText.Spells(m.key, "mbr")) && !m.value.Text? && !m.value.Null? ==>
          PlanOf(blob) == LoadGpt(blob)
  {
    Base64.DecodeEncode([]);
    assert Base64.Encode([]) == "";
    if Json.Parse(blob).value.Object? {
      var members := Json.Parse(blob).value.members;
      forall i | 0 <= i < |members| && !members[i].value.Text? && !members[i].value.Null?
        && (GoText.Spells(members[i].key, "type") || GoText.Spells(members[i].key, "mbr"))
        ensures PlanOf(blob) == LoadGpt(blob)
      {
        Json.NamesMatch(members[i].key, "type");
        Json.NamesMatch(members[i].key, "mbr");
        assert FIELD_NAMES[0] == "type" && FIELD_NAMES[3] == "mbr";
        assert Json.Mistyped(members, FIELD_NAMES);
      }
    }
  }
}
