/** Which filesystems imaging can shrink before a capture and grow after a deploy. */
module Resize {
  import opened GoText
  import opened Wrappers

  datatype Tool = Ntfs | Ext | Btrfs | Xfs | F2fs

  predicate CanShrink(fs: string) {
    ToLower(fs) in ["ext2", "ext3", "ext4", "ntfs", "btrfs"]
  }

  /** The branch Shrink takes; none is its default. */
  function ShrinkTool(fs: string): Option<Tool> {
    var name := ToLower(fs);
    if name == "ntfs" then Some(Ntfs)
    else if name == "ext2" || name == "ext3" || name == "ext4" then Some(Ext)
    else if name == "btrfs" then Some(Btrfs)
    else None
  }

  /** The branch Expand takes; none is its default. */
  function ExpandTool(fs: string): Option<Tool> {
    var name := ToLower(fs);
    if name == "ntfs" then Some(Ntfs)
    else if name == "ext2" || name == "ext3" || name == "ext4" then Some(Ext)
    else if name == "btrfs" then Some(Btrfs)
    else if name == "xfs" then Some(Xfs)
    else if name == "f2fs" then Some(F2fs)
    else None
  }

  /** The external commands a shrink runs, one after the other. */
  function ShrinkCommands(tool: Tool): nat {
    match tool
    case Ntfs => 2
    case Ext => 2
    case Btrfs => 3
    case _ => 0
  }

  datatype ShrinkResult = Shrunk | Unsupported | ShrinkFailed

  /** Shrink: (true, nil), (false, nil) or an error; it stops at the first command that fails. */
  function Shrink(fs: string, succeeds: nat -> bool): ShrinkResult {
    match ShrinkTool(fs)
    case None => Unsupported
    case Some(tool) => if forall k | 0 <= k < ShrinkCommands(tool) :: succeeds(k) then Shrunk else ShrinkFailed
  }

  /** CanShrink names exactly the filesystems Shrink has a branch for, and whatever shrinks can be
      grown again by the same tool; only xfs and f2fs grow without shrinking. */
  lemma ShrinkableCanGrow(fs: string)
    ensures CanShrink(fs) <==> ShrinkTool(fs).Some?
    ensures CanShrink(fs) ==> ExpandTool(fs) == ShrinkTool(fs)
    ensures ExpandTool(fs).Some? && !CanShrink(fs) <==> ToLower(fs) == "xfs" || ToLower(fs) == "f2fs"
  {
  }

  /** The names Shrink knows, in any case. */
  predicate IsExt(fs: string) {
    Spells(fs, "ext2") || Spells(fs, "ext3") || Spells(fs, "ext4")
  }

  lemma ToolByName(fs: string)
    ensures ShrinkTool(fs) == Some(Ntfs) <==> Spells(fs, "ntfs")
    ensures ShrinkTool(fs) == Some(Ext) <==> IsExt(fs)
    ensures ShrinkTool(fs) == Some(Btrfs) <==> Spells(fs, "btrfs")
    ensures ExpandTool(fs) == Some(Xfs) <==> Spells(fs, "xfs")
    ensures ExpandTool(fs) == Some(F2fs) <==> Spells(fs, "f2fs")
  {
    ToLowerIff(fs, "ntfs");
    ToLowerIff(fs, "ext2");
    ToLowerIff(fs, "ext3");
    ToLowerIff(fs, "ext4");
    ToLowerIff(fs, "btrfs");
    ToLowerIff(fs, "xfs");
    ToLowerIff(fs, "f2fs");
  }

  lemma ExpandToolByName(fs: string)
    ensures ExpandTool(fs) == Some(Ntfs) <==> Spells(fs, "ntfs")
    ensures ExpandTool(fs) == Some(Ext) <==> IsExt(fs)
    ensures ExpandTool(fs) == Some(Btrfs) <==> Spells(fs, "btrfs")
  {
    ToolByName(fs);
  }

  /** A filesystem is shrunk exactly when it has a tool and all the commands work: the dry run and the
      resize of ntfs, the check and the resize of ext, the directory, the mount and the resize of btrfs. */
  lemma ShrunkIff(fs: string, succeeds: nat -> bool)
    ensures Shrink(fs, succeeds) == Shrunk <==>
      || ((Spells(fs, "ntfs") || IsExt(fs)) && succeeds(0) && succeeds(1))
      || (Spells(fs, "btrfs") && succeeds(0) && succeeds(1) && succeeds(2))
    ensures Shrink(fs, succeeds) == Unsupported <==> !Spells(fs, "ntfs") && !IsExt(fs) && !Spells(fs, "btrfs")
  {
    ToolByName(fs);
  }
}
