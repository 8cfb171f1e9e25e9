/** The log forwarder on a Go slice: a backing array with an offset, a length and the capacity the
    array leaves. `Handle` shifts in place when full and appends, reallocating when the capacity is
    used up; `flush` copies a batch out and reslices from the front. */
module RemoteHandler {
  import opened Wrappers
  import opened LogQueue

  datatype LogEntry = LogEntry(time: string, level: string, msg: string, attrs: map<string, string>)

  class Handler {
    // The slice h.buf is data[off..off + len], its capacity data.Length - off.
    var data: array<LogEntry>
    var off: nat
    var len: nat
    var target: Option<Target>

    ghost var log: Log<LogEntry>             // the queue this slice stands for
    ghost var sent: seq<array<LogEntry>>     // the arrays handed to SendLogs, one a batch

    ghost predicate Valid()
      reads this, data, sent
    {
      && Fits()
      && len <= CAPACITY && log.pending == Buffer()
      && log.target == target
      && |sent| == |log.batches|
      && (forall k | 0 <= k < |sent| :: sent[k] != data && sent[k][..] == log.batches[k].entries)
    }

    ghost predicate Fits()
      reads this
    {
      off + len <= data.Length
    }

    ghost function Buffer(): seq<LogEntry>
      requires Fits()
      reads this, data
    {
      data[off..off + len]
    }

    constructor ()
      ensures Valid() && fresh(data) && data.Length == CAPACITY
      ensures log == Initial() && sent == []
    {
      data := new LogEntry[CAPACITY];
      off, len := 0, 0;
      target := None;
      log := Initial();
      sent := [];
    }

    /** The handler of WithAttrs and WithGroup: a copy of the slice header, on the same array. */
    constructor Sharing(parent: Handler)
      requires parent.Valid()
      ensures Valid() && data == parent.data && off == parent.off && len == parent.len
      ensures target == parent.target && sent == []
    {
      data := parent.data;
      off, len := parent.off, parent.len;
      target := parent.target;
      log := Log(parent.log.pending, parent.log.pending, [], 0, parent.target);
      sent := [];
    }

    method Handle(entry: LogEntry)
      requires Valid()
      modifies this, data
      ensures Valid()
      ensures log == Step(old(log), Operation.Handle(entry)) && sent == old(sent)
      // In place while the capacity lasts, one cell when there is no shift; on a new array otherwise.
      ensures old(len < CAPACITY && off + len < data.Length) ==>
        && data == old(data) && off == old(off) && len == old(len) + 1
        && forall i | 0 <= i < data.Length && i != off + len - 1 :: data[i] == old(data[i])
      ensures old(len >= CAPACITY) ==> data == old(data) && off == old(off) && len == old(len)
      ensures old(off + len >= data.Length && len < CAPACITY) ==>
        fresh(data) && old(data)[..] == old(data[..])
    {
      Push(entry);
      log := Step(log, Operation.Handle(entry));
    }

    /** What Handle does under the mutex, on whatever the array holds by then. */
    method Push(entry: LogEntry)
      requires Fits()
      modifies this`data, this`off, this`len, data
      ensures Fits()
      ensures Buffer() == (if old(len) >= CAPACITY then old(Buffer())[1..] else old(Buffer())) + [entry]
      ensures old(len < CAPACITY && off + len < data.Length) ==>
        && data == old(data) && off == old(off)
        && forall i | 0 <= i < data.Length && i != off + old(len) :: data[i] == old(data[i])
      ensures old(len >= CAPACITY) ==> data == old(data) && off == old(off)
      ensures old(off + len >= data.Length && len < CAPACITY) ==>
        fresh(data) && old(data)[..] == old(data[..])
    {
      if len >= CAPACITY {
        ShiftOut();
      }
      Append(entry);
    }

    /** copy(h.buf, h.buf[1:]) and the loss of the last cell: the oldest record is gone. */
    method ShiftOut()
      requires Fits() && len > 0
      modifies this`len, data
      ensures len == old(len) - 1
      ensures Buffer() == old(Buffer())[1..]
    {
      forall i | 0 <= i < len - 1 {
        data[off + i] := data[off + i + 1];
      }
      len := len - 1;
    }

    /** append(h.buf, entry). */
    method Append(entry: LogEntry)
      requires Fits()
      modifies this`data, this`off, this`len, data
      ensures Fits() && len == old(len) + 1
      ensures Buffer() == old(Buffer()) + [entry]
      ensures old(off + len < data.Length) ==>
        && data == old(data) && off == old(off)
        && forall i | 0 <= i < data.Length && i != off + old(len) :: data[i] == old(data[i])
      ensures old(off + len >= data.Length) ==> fresh(data) && old(data)[..] == old(data[..])
    {
      if off + len == data.Length {
        var capacity: nat :| capacity > len;
        var grown := new LogEntry[capacity];
        forall i | 0 <= i < len {
          grown[i] := data[off + i];
        }
        grown[len] := entry;
        data, off := grown, 0;
      } else {
        data[off + len] := entry;
      }
      len := len + 1;
    }

    method SetClient(client: Option<Target>)
      requires Valid()
      modifies this`target, this`log
      ensures Valid()
      ensures log == Step(old(log), Operation.SetClient(client)) && target == client
    {
      target := client;
      log := Step(log, Operation.SetClient(client));
    }

    /** make, copy and h.buf = h.buf[n:]: the front of the slice, on an array of its own. */
    method TakeFront(n: nat) returns (copied: array<LogEntry>)
      requires Fits() && n <= len
      modifies this`off, this`len
      ensures Fits() && fresh(copied)
      ensures copied[..] == old(Buffer())[..n] && Buffer() == old(Buffer())[n..]
    {
      copied := new LogEntry[n];
      forall i | 0 <= i < n {
        copied[i] := data[off + i];
      }
      off, len := off + n, len - n;
    }

    /** The part of flush under the mutex; the batch is what SendLogs gets afterwards. */
    method Flush() returns (batch: Option<array<LogEntry>>)
      requires Valid()
      modifies this`off, this`len, this`log, this`sent
      ensures Valid()
      ensures log == Step(old(log), Operation.Flush)
      ensures batch.None? <==> old(target.None? || len == 0)
      ensures batch.None? ==> sent == old(sent)
      ensures batch.Some? ==> fresh(batch.value) && sent == old(sent) + [batch.value]
      ensures batch.Some? ==> log.batches[|old(log.batches)|].target == old(target.value)
    {
      if target.None? || len == 0 {
        return None;
      }
      var copied := TakeFront(Min(len, DRAIN_BATCH));
      log := Step(log, Operation.Flush);
      sent := sent + [copied];
      batch := Some(copied);
    }
  }

  /** A batch once taken never changes: not by the records handled later, whether they are appended
      in place, shift the slice or move it to a new array, nor by later flushes. */
  method RunOperations(h: Handler, ops: seq<Operation<LogEntry>>)
    requires h.Valid()
    modifies h, h.data
    ensures h.Valid()
    ensures h.log == Run(old(h.log), ops)
    ensures old(h.sent) <= h.sent
    ensures forall k | 0 <= k < |old(h.sent)| ::
      h.sent[k] == old(h.sent[k]) && h.sent[k][..] == old(h.sent[k][..])
  {
    ghost var start := h.log;
    for i := 0 to |ops|
      invariant h.Valid()
      invariant h.data == old(h.data) || fresh(h.data)
      invariant Run(h.log, ops[i..]) == Run(start, ops)
      invariant old(h.sent) <= h.sent
      invariant forall k | 0 <= k < |old(h.sent)| ::
        h.sent[k] == old(h.sent[k]) && h.sent[k][..] == old(h.sent[k][..])
    {
      assert ops[i..][0] == ops[i] && ops[i..][1..] == ops[i + 1..];
      match ops[i] {
        case Handle(e) => h.Handle(e);
        case SetClient(t) => h.SetClient(t);
        case Flush => var _ := h.Flush();
      }
    }
  }

  /** A record handled before or after the client is set goes out with the next flush, to that client. */
  method FirstFlush(early: LogEntry, late: LogEntry, client: Target)
    returns (h: Handler, batch: Option<array<LogEntry>>)
    ensures h.Valid() && batch.Some? && batch.value[..] == [early, late]
    ensures h.log.batches == [Batch(0, [early, late], client)] && h.log.pending == []
  {
    h := new Handler();
    h.Handle(early);
    h.SetClient(Some(client));
    h.Handle(late);
    assert h.log.pending == [early, late];
    batch := h.Flush();
    assert h.log.batches[0].entries == [early, late];
  }

  /** Any run of a new handler keeps the whole-run invariant of the queue it stands for. */
  method RunNewHandler(ops: seq<Operation<LogEntry>>) returns (h: Handler)
    ensures h.Valid() && h.log == Run(Initial(), ops) && Consistent(h.log)
  {
    h := new Handler();
    RunOperations(h, ops);
    LogQueue.RunFromStart(ops);
  }

  /** A child handles a record: what happens to a parent that has handled one since they parted. */
  method ChildPushes(parent: Handler, child: Handler, entry: LogEntry)
    requires parent != child && parent.Fits() && child.Fits()
    requires parent.data == child.data ==>
      parent.off == child.off && parent.len == if child.len >= CAPACITY then child.len else child.len + 1
    modifies child`data, child`off, child`len, child.data
    ensures parent.Fits()
    ensures old(parent.data == child.data && child.len >= CAPACITY) ==>
      parent.Buffer() == old(parent.Buffer())[1..] + [entry]
    ensures old(parent.data == child.data && child.len < CAPACITY) ==>
      parent.Buffer() == old(parent.Buffer())[..old(child.len)] + [entry]
    ensures old(parent.data != child.data) ==> parent.Buffer() == old(parent.Buffer())
  {
    child.Push(entry);
    if old(parent.data == child.data) {
      assert parent.Buffer() == child.Buffer();
    }
  }

  /** A parent and a child made from it by WithAttrs or WithGroup each handle a record, the parent
      first. */
  method ParentThenChild(parent: Handler, mine: LogEntry, childs: LogEntry)
    requires parent.Valid()
    modifies parent, parent.data
    ensures parent.Fits() && parent.log == Step(old(parent.log), Operation.Handle(mine))
    ensures parent.Buffer() == old(ParentBuffer(parent, mine, childs))
  {
    var child := new Handler.Sharing(parent);
    parent.Handle(mine);
    ChildPushes(parent, child, childs);
  }

  /** What the parent then holds. Its own queue would hold its own record last; but while the array
      has a free cell both write that cell, and once the buffer is full both shift the array. */
  ghost function ParentBuffer(parent: Handler, mine: LogEntry, childs: LogEntry): seq<LogEntry>
    requires parent.Valid()
    reads parent, parent.data, parent.sent
  {
    if parent.len >= CAPACITY then parent.Buffer()[2..] + [mine, childs]
    else parent.Buffer() + [if parent.off + parent.len < parent.data.Length then childs else mine]
  }

  /** The parent is left as if it were alone exactly when the array was used up, so that it moved to
      a new one, or the records cannot be told apart. */
  lemma ChildHarmlessIff(parent: Handler, mine: LogEntry, childs: LogEntry)
    requires parent.Valid()
    ensures ParentBuffer(parent, mine, childs) == Step(parent.log, Operation.Handle(mine)).pending <==>
      if parent.len >= CAPACITY then
        childs == mine && forall i | 1 <= i < parent.len :: parent.Buffer()[i] == mine
      else childs == mine || parent.off + parent.len == parent.data.Length
  {
    var b := parent.Buffer();
    var shared, alone := ParentBuffer(parent, mine, childs), Step(parent.log, Operation.Handle(mine)).pending;
    if parent.len >= CAPACITY {
      if shared == alone {
        SameShifted(b, mine, childs);
      }
    } else {
      assert shared[parent.len] == mine <==> shared == alone;
    }
  }

  /** A list that equals itself shifted by one is constant. */
  lemma SameShifted(b: seq<LogEntry>, mine: LogEntry, childs: LogEntry)
    requires |b| >= 2 && b[2..] + [mine, childs] == b[1..] + [mine]
    ensures childs == mine && forall i | 1 <= i < |b| :: b[i] == mine
  {
    var shared, alone := b[2..] + [mine, childs], b[1..] + [mine];
    assert shared[|b| - 1] == childs && alone[|b| - 1] == mine;
    assert shared[|b| - 2] == mine && alone[|b| - 2] == b[|b| - 1];
    var i := |b| - 1;
    while i > 1
      invariant 1 <= i < |b| && forall k | i <= k < |b| :: b[k] == mine
    {
      i := i - 1;
      assert shared[i - 1] == b[i + 1] && alone[i - 1] == b[i];
    }
  }
}
