/** The two sides an image passes between: the computer with its partitions, and the server. */
module Machine {
  import opened Wrappers
  import Client
  import PartitionTable
  import Readers
  import Sentinel

  /** What a partition holds. */
  datatype Volume =
    | Filesystem(kind: string, content: seq<Byte>, size: nat)
    | Swap(uuid: string)
    | Garbage

  /** partclone: the stream a clone writes, by filesystem label, and the volume a restore makes of a stream. */
  datatype Partclone = Partclone(clone: (string, Volume) -> seq<Byte>, restore: seq<Byte> -> Volume)

  /** What imaging relies on for a volume: restore inverts clone, and the stream is no sentinel. */
  predicate Recoverable(pc: Partclone, fs: string, v: Volume) {
    pc.restore(pc.clone(fs, v)) == v && !Sentinel.IsSentinel(pc.clone(fs, v))
  }

  /** What the agent does to a partition, or asks for on its behalf. */
  datatype Call =
    | Download(part: nat, offset: nat)
    | MakeSwap(part: nat, device: string, uuid: string)
    | RestoreImage(part: nat, device: string)
    | ClearDirty(part: nat, device: string)
    | Expand(part: nat, device: string, fs: string)

  class Computer {
    var volumes: map<string, Volume>    // by device path
    var sizes: map<int, nat>            // of the partitions of the target disk, by number
    var calls: seq<Call>
    var shredded: seq<string>           // the disks shred was started on
    const area: PartitionTable.TableArea

    constructor (volumes: map<string, Volume>, area: PartitionTable.TableArea)
      ensures this.volumes == volumes && this.area == area && sizes == map[] && calls == [] && shredded == []
    {
      this.volumes, this.sizes, this.calls, this.shredded, this.area := volumes, map[], [], [], area;
    }
  }

  function At(volumes: map<string, Volume>, device: string): Volume {
    if device in volumes then volumes[device] else Garbage
  }

  /** What the server keeps beside an image and sends with a deploy task. */
  datatype ImageMeta = ImageMeta(imageType: string, fixedSize: seq<nat>, partCount: nat)

  const RESIZABLE: string := "resizable"

  function Copies<T>(n: nat, x: T): (copies: seq<T>)
    ensures |copies| == n && forall i | 0 <= i < n :: copies[i] == x
  {
    seq(n, _ => x)
  }

  /** The server, and what the agent has asked of it. */
  class Server {
    var parts: map<nat, seq<Byte>>
    var meta: Option<ImageMeta>
    var completed: seq<bool>    // the success flag of every Complete call
    var posts: seq<bool>        // the same flag, once for every request such a call made

    constructor ()
      ensures parts == map[] && meta == None && completed == [] && posts == []
    {
      parts, meta, completed, posts := map[], None, [], [];
    }

    /** client.Complete: one report, posted up to five times. */
    method Complete(r: Client.Replies, success: bool) returns (ok: bool)
      modifies this`completed, this`posts
      ensures Reported(old(completed), old(posts), completed, posts, r, success) && ok == Client.Succeeds(r)
    {
      completed := completed + [success];
      var calls, waited;
      ok, calls, waited := Client.Post(r);
      posts := posts + Copies(calls, success);
    }

    /** reportFail, whose own error is ignored. */
    method ReportFail(r: Client.Replies)
      modifies this`completed, this`posts
      ensures Reported(old(completed), old(posts), completed, posts, r, false)
    {
      var _ := Complete(r, false);
    }

    /** client.SetImageMeta; a request that was stored may still fail, its answer lost. */
    method SetImageMeta(r: Client.Replies, kept: bool, meta: ImageMeta) returns (ok: bool)
      modifies this`meta
      ensures ok == Client.Succeeds(r)
      ensures this.meta == if ok || kept then Some(meta) else old(this.meta)
    {
      var calls, waited;
      ok, calls, waited := Client.Post(r);
      if ok || kept {
        this.meta := Some(meta);
      }
    }

    /** client.UploadPart of a byte slice, drained in reads of any sizes: all of it when it succeeds;
        as of any failed upload the server holds as much as it was sent. */
    method Upload(part: nat, body: seq<Byte>, readSize: nat -> nat, ok: bool, sent: nat)
      modifies this`parts
      ensures parts == old(parts)[part := Arrived(body, ok, sent)]
    {
      var all, _ := Readers.Drain(body, (i: nat) => readSize(i) + 1);
      parts := parts[part := Arrived(all, ok, sent)];
    }
  }

  function Arrived(body: seq<Byte>, ok: bool, sent: nat): (arrived: seq<Byte>)
    ensures arrived <= body && (ok ==> arrived == body) && (!ok ==> |arrived| == Min(sent, |body|))
  {
    if ok then body else body[..Min(sent, |body|)]
  }

  /** Exactly one report was made, with this flag, and it was posted one to five times. */
  predicate Reported(completed0: seq<bool>, posts0: seq<bool>, completed: seq<bool>, posts: seq<bool>,
                     r: Client.Replies, success: bool) {
    completed == completed0 + [success] && posts == posts0 + Copies(Client.Calls(r), success)
  }

  /** Where an action may go on there is no report yet; where it stops it has reported its failure. */
  predicate ReportedFailure(completed0: seq<bool>, posts0: seq<bool>, completed: seq<bool>, posts: seq<bool>,
                            r: Client.Replies, stopped: bool) {
    if stopped then Reported(completed0, posts0, completed, posts, r, false)
    else completed == completed0 && posts == posts0
  }
}
