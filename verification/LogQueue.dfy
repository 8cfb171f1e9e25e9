/** The log forwarder as an abstract queue: what Handle, SetClient and flush do to the records
    still waiting, and what that means over whole runs. Each operation holds the mutex for all of
    its effect, so an interleaving of goroutines is a sequence of operations. */
module LogQueue {
  import opened Wrappers

  const CAPACITY: nat := 2000
  const DRAIN_BATCH: nat := 100

  /** Where flushed records go: the client, and the task they are filed under. */
  datatype Target = Target(client: string, taskId: string)

  /** Records taken by one flush; `start` is the position of the first in the handled history. */
  datatype Batch<T> = Batch(start: int, entries: seq<T>, target: Target)

  datatype Log<T> = Log(
    handled: seq<T>,           // every record ever handled, oldest first
    pending: seq<T>,           // the records waiting
    batches: seq<Batch<T>>,    // what the flushes took, in order
    dropped: nat,              // how many records were discarded
    target: Option<Target>)

  datatype Operation<T> = Handle(entry: T) | SetClient(target: Option<Target>) | Flush

  function Initial<T>(): Log<T> {
    Log([], [], [], 0, None)
  }

  function Step<T>(log: Log<T>, op: Operation<T>): Log<T> {
    match op
    case Handle(e) =>
      var full := |log.pending| >= CAPACITY;
      log.(handled := log.handled + [e],
           pending := (if full then log.pending[1..] else log.pending) + [e],
           dropped := if full then log.dropped + 1 else log.dropped)
    case SetClient(target) =>
      log.(target := target)
    case Flush =>
      if log.target.None? || log.pending == [] then log
      else
        var n := Min(|log.pending|, DRAIN_BATCH);
        log.(pending := log.pending[n..],
             batches := log.batches + [Batch(|log.handled| - |log.pending|, log.pending[..n], log.target.value)])
  }

  function Run<T>(log: Log<T>, ops: seq<Operation<T>>): Log<T>
    decreases |ops|
  {
    if ops == [] then log else Run(Step(log, ops[0]), ops[1..])
  }

  function EntriesOf<T>(batches: seq<Batch<T>>): (lists: seq<seq<T>>)
    ensures |lists| == |batches|
  {
    seq(|batches|, i requires 0 <= i < |batches| => batches[i].entries)
  }

  function Taken<T>(batches: seq<Batch<T>>): nat {
    |Flatten(EntriesOf(batches))|
  }

  lemma TakenAppend<T>(batches: seq<Batch<T>>, b: Batch<T>)
    ensures Flatten(EntriesOf(batches + [b])) == Flatten(EntriesOf(batches)) + b.entries
  {
    assert EntriesOf(batches + [b]) == EntriesOf(batches) + [b.entries];
    FlattenAppend(EntriesOf(batches), b.entries);
  }

  // ---------------------------------------------------------------- the whole-run invariant

  /** A batch is a window of the history that ended before the records still pending. */
  predicate IsWindow<T(==)>(b: Batch<T>, handled: seq<T>, end: nat) {
    && 1 <= |b.entries| <= DRAIN_BATCH
    && 0 <= b.start && b.start + |b.entries| <= end <= |handled|
    && b.entries == handled[b.start..b.start + |b.entries|]
  }

  predicate Consistent<T(==)>(log: Log<T>) {
    && |log.pending| <= CAPACITY
    && |log.pending| <= |log.handled|
    && log.pending == log.handled[|log.handled| - |log.pending|..]
    && (forall k | 0 <= k < |log.batches| ::
          IsWindow(log.batches[k], log.handled, |log.handled| - |log.pending|))
    && (forall j, k | 0 <= j < k < |log.batches| ::
          log.batches[j].start + |log.batches[j].entries| <= log.batches[k].start)
    && Taken(log.batches) + log.dropped + |log.pending| == |log.handled|
  }

  lemma WindowExtends<T>(b: Batch<T>, handled: seq<T>, end: nat, e: T, end': nat)
    requires IsWindow(b, handled, end) && end <= end' <= |handled| + 1
    ensures IsWindow(b, handled + [e], end')
  {
    assert (handled + [e])[b.start..b.start + |b.entries|] == handled[b.start..b.start + |b.entries|];
  }

  lemma HandleConsistent<T>(log: Log<T>, e: T)
    requires Consistent(log)
    ensures Consistent(Step(log, Handle(e)))
  {
    var log' := Step(log, Handle(e));
    forall k | 0 <= k < |log.batches|
      ensures IsWindow(log'.batches[k], log'.handled, |log'.handled| - |log'.pending|)
    {
      WindowExtends(log.batches[k], log.handled, |log.handled| - |log.pending|, e,
                    |log'.handled| - |log'.pending|);
    }
  }

  lemma FlushConsistent<T>(log: Log<T>)
    requires Consistent(log)
    ensures Consistent(Step(log, Flush))
  {
    if log.target.Some? && log.pending != [] {
      var log' := Step(log, Flush);
      var b := log'.batches[|log.batches|];
      var end, end' := |log.handled| - |log.pending|, |log'.handled| - |log'.pending|;
      assert b.entries == log.handled[b.start..b.start + |b.entries|];
      forall k | 0 <= k < |log'.batches|
        ensures IsWindow(log'.batches[k], log'.handled, end')
      {
        if k < |log.batches| {
          assert IsWindow(log.batches[k], log.handled, end);
        }
      }
      TakenAppend(log.batches, b);
    }
  }

  lemma StepConsistent<T>(log: Log<T>, op: Operation<T>)
    requires Consistent(log)
    ensures Consistent(Step(log, op))
  {
    match op {
      case Handle(e) => HandleConsistent(log, e);
      case SetClient(_) =>
      case Flush => FlushConsistent(log);
    }
  }

  /** At every state of every interleaving: the waiting records are the newest ones, at most
      CAPACITY of them; the batches are windows of the history, disjoint and in order, of at most
      DRAIN_BATCH records; and every record was sent, dropped, or is waiting, exactly once. */
  lemma {:induction false} RunConsistent<T>(log: Log<T>, ops: seq<Operation<T>>)
    requires Consistent(log)
    ensures Consistent(Run(log, ops))
    decreases |ops|
  {
    if ops != [] {
      StepConsistent(log, ops[0]);
      RunConsistent(Step(log, ops[0]), ops[1..]);
    }
  }

  /** Whether the batch took the record at this position of the history. */
  predicate Covers<T>(b: Batch<T>, position: nat) {
    b.start <= position < b.start + |b.entries|
  }

  /** Sent once at most: a position of the history lies in no two batches, and in no batch while it waits. */
  lemma AtMostOnce<T>(log: Log<T>, position: nat, j: nat, k: nat)
    requires Consistent(log) && j < |log.batches| && k < |log.batches|
    requires Covers(log.batches[k], position)
    ensures Covers(log.batches[j], position) ==> j == k
    ensures position < |log.handled| - |log.pending|
    ensures log.batches[k].entries[position - log.batches[k].start] == log.handled[position]
  {
    var b := log.batches[k];
    assert IsWindow(b, log.handled, |log.handled| - |log.pending|);
    assert b.entries[position - b.start] == log.handled[b.start..b.start + |b.entries|][position - b.start];
  }

  /** The first n waiting records have been sent, in order, and nothing else has happened. */
  predicate HasSent<T(==)>(log: Log<T>, after: Log<T>, n: nat)
    requires n <= |log.pending|
  {
    && after.pending == log.pending[n..]
    && Flatten(EntriesOf(after.batches)) == Flatten(EntriesOf(log.batches)) + log.pending[..n]
    && after.dropped == log.dropped && after.target == log.target
  }

  lemma FlushTakes<T>(log: Log<T>)
    requires log.target.Some?
    ensures HasSent(log, Step(log, Flush), Min(|log.pending|, DRAIN_BATCH))
  {
    if log.pending != [] {
      TakenAppend(log.batches, Step(log, Flush).batches[|log.batches|]);
    }
  }

  /** While no record is dropped, what was sent followed by what waits is the whole history. */
  predicate Complete<T(==)>(log: Log<T>) {
    Flatten(EntriesOf(log.batches)) + log.pending == log.handled
  }

  lemma StepComplete<T>(log: Log<T>, op: Operation<T>)
    requires Complete(log) && Step(log, op).dropped == log.dropped
    ensures Complete(Step(log, op))
  {
    var sent := Flatten(EntriesOf(log.batches));
    match op {
      case Handle(e) => Associative(sent, log.pending, [e]);
      case SetClient(_) =>
      case Flush =>
        if log.target.Some? {
          FlushTakes(log);
          var n := Min(|log.pending|, DRAIN_BATCH);
          Associative(sent, log.pending[..n], log.pending[n..]);
          assert log.pending[..n] + log.pending[n..] == log.pending;
        }
    }
  }

  lemma {:induction false} DroppedGrows<T>(log: Log<T>, ops: seq<Operation<T>>)
    ensures log.dropped <= Run(log, ops).dropped
    decreases |ops|
  {
    if ops != [] {
      DroppedGrows(Step(log, ops[0]), ops[1..]);
    }
  }

  /** A run ends with its whole history sent or waiting, in order, exactly when it dropped nothing. */
  lemma {:induction false} CompleteIffNothingDropped<T>(log: Log<T>, ops: seq<Operation<T>>)
    requires Consistent(log) && Complete(log)
    ensures Complete(Run(log, ops)) <==> Run(log, ops).dropped == log.dropped
  {
    RunConsistent(log, ops);
    DroppedGrows(log, ops);
    if Run(log, ops).dropped == log.dropped {
      LosslessRunComplete(log, ops);
    }
  }

  lemma {:induction false} LosslessRunComplete<T>(log: Log<T>, ops: seq<Operation<T>>)
    requires Complete(log) && Run(log, ops).dropped == log.dropped
    ensures Complete(Run(log, ops))
    decreases |ops|
  {
    if ops != [] {
      DroppedGrows(Step(log, ops[0]), ops[1..]);
      StepComplete(log, ops[0]);
      LosslessRunComplete(Step(log, ops[0]), ops[1..]);
    }
  }

  /** The same for every run of a new handler. */
  lemma RunFromStart<T>(ops: seq<Operation<T>>)
    ensures Consistent(Run(Initial(), ops))
    ensures Complete(Run(Initial(), ops)) <==> Run(Initial(), ops).dropped == 0
  {
    assert EntriesOf<T>([]) == [];
    RunConsistent(Initial<T>(), ops);
    CompleteIffNothingDropped(Initial<T>(), ops);
  }

  // ---------------------------------------------------------------- when nothing is lost

  /** At most DRAIN_BATCH records arrive between two flushes, counting `since` already arrived,
      and the client stays set. */
  predicate Paced<T>(ops: seq<Operation<T>>, since: nat) {
    ops != [] ==>
      match ops[0]
      case Handle(_) => since < DRAIN_BATCH && Paced(ops[1..], since + 1)
      case SetClient(target) => target.Some? && Paced(ops[1..], since)
      case Flush => Paced(ops[1..], 0)
  }

  /** However long the run: a paced one that starts with room for a batch never drops a record. */
  lemma {:induction false} PacedRunLosesNothing<T>(log: Log<T>, ops: seq<Operation<T>>, since: nat)
    requires Consistent(log) && log.target.Some?
    requires since <= DRAIN_BATCH && |log.pending| <= CAPACITY - DRAIN_BATCH + since
    requires Paced(ops, since)
    ensures Run(log, ops).dropped == log.dropped
    decreases |ops|
  {
    if ops != [] {
      StepConsistent(log, ops[0]);
      var since' := if ops[0].Handle? then since + 1 else if ops[0].Flush? then 0 else since;
      PacedRunLosesNothing(Step(log, ops[0]), ops[1..], since');
    }
  }

  function Handles<T>(entries: seq<T>): (ops: seq<Operation<T>>)
    ensures |ops| == |entries|
  {
    seq(|entries|, i requires 0 <= i < |entries| => Operation.Handle(entries[i]))
  }

  /** Without a flush, exactly the overflow is dropped, and it is the oldest records that go. */
  lemma {:induction false} BurstDropsOverflow<T>(log: Log<T>, entries: seq<T>)
    requires |log.pending| <= CAPACITY
    ensures var all := log.pending + entries;
      var after := Run(log, Handles(entries));
      var overflow := if |all| <= 2000 then 0 else |all| - 2000;
      after.dropped == log.dropped + overflow && after.pending == all[overflow..]
    decreases |entries|
  {
    if entries == [] {
      assert Handles(entries) == [];
    } else {
      assert Handles(entries)[1..] == Handles(entries[1..]);
      var next := Step(log, Handle(entries[0]));
      BurstDropsOverflow(next, entries[1..]);
      var all := log.pending + entries;
      if |log.pending| < CAPACITY {
        assert next.pending + entries[1..] == all;
      } else {
        assert next.pending + entries[1..] == all[1..];
      }
    }
  }

  // ---------------------------------------------------------------- draining

  function Flushes<T>(n: nat): (ops: seq<Operation<T>>)
    ensures |ops| == n
  {
    seq(n, _ => Operation.Flush)
  }

  lemma FlushesUnroll<T>(log: Log<T>, n: nat)
    requires n > 0
    ensures Run(log, Flushes(n)) == Run(Step(log, Flush), Flushes(n - 1))
  {
    assert Flushes<T>(n)[1..] == Flushes(n - 1);
  }

  /** n flushes with no new record send the first n * 100 records, in order. */
  lemma {:induction false} Drain<T>(log: Log<T>, n: nat)
    requires log.target.Some?
    ensures HasSent(log, Run(log, Flushes(n)), Min(|log.pending|, n * 100))
    decreases n
  {
    if n > 0 {
      var next := Step(log, Flush);
      FlushesUnroll(log, n);
      FlushTakes(log);
      Drain(next, n - 1);
      SentTwice(log, next, Run(log, Flushes(n)), 100, (n - 1) * 100);
    }
  }

  /** Sending up to a records, then up to b of what is left, sends up to a + b. */
  lemma SentTwice<T>(log: Log<T>, next: Log<T>, after: Log<T>, a: nat, b: nat)
    requires HasSent(log, next, Min(|log.pending|, a)) && HasSent(next, after, Min(|next.pending|, b))
    ensures HasSent(log, after, Min(|log.pending|, a + b))
  {
    var s, first, rest := log.pending, Min(|log.pending|, a), Min(|next.pending|, b);
    Associative(Flatten(EntriesOf(log.batches)), s[..first], s[first..][..rest]);
    assert s[..first] + s[first..][..rest] == s[..Min(|s|, a + b)];
  }

  /** The buffer is empty after n flushes exactly when n is at least the length over 100, rounded up. */
  lemma DrainedExactly<T>(log: Log<T>, n: nat)
    requires log.target.Some?
    ensures Run(log, Flushes(n)).pending == [] <==> n >= (|log.pending| + 99) / 100
  {
    Drain(log, n);
  }

  // ---------------------------------------------------------------- the client

  lemma {:induction false} RunAppend<T>(log: Log<T>, ops: seq<Operation<T>>, more: seq<Operation<T>>)
    ensures Run(log, ops + more) == Run(Run(log, ops), more)
    decreases |ops|
  {
    if ops == [] {
      assert ops + more == more;
    } else {
      assert (ops + more)[1..] == ops[1..] + more;
      RunAppend(Step(log, ops[0]), ops[1..], more);
    }
  }

  lemma {:induction false} TargetKept<T>(log: Log<T>, ops: seq<Operation<T>>)
    requires forall i | 0 <= i < |ops| :: !ops[i].SetClient?
    ensures Run(log, ops).target == log.target
    decreases |ops|
  {
    if ops != [] {
      TargetKept(Step(log, ops[0]), ops[1..]);
    }
  }

  /** After a run the client is that of its last SetClient. */
  lemma {:induction false} LastSetClientCounts<T>(log: Log<T>, ops: seq<Operation<T>>, i: nat)
    requires i < |ops| && ops[i].SetClient? && forall j | i < j < |ops| :: !ops[j].SetClient?
    ensures Run(log, ops).target == ops[i].target
    decreases |ops|
  {
    if i == 0 {
      TargetKept(Step(log, ops[0]), ops[1..]);
    } else {
      LastSetClientCounts(Step(log, ops[0]), ops[1..], i - 1);
    }
  }

  lemma {:induction false} BatchesStay<T>(log: Log<T>, ops: seq<Operation<T>>)
    ensures log.batches <= Run(log, ops).batches
    decreases |ops|
  {
    if ops != [] {
      BatchesStay(Step(log, ops[0]), ops[1..]);
    }
  }

  /** A flush in the middle of a run takes the oldest records waiting, at most 100, for the client in force
      then, if there is one and there are any; and nothing later changes that batch. */
  lemma FlushSends<T>(log: Log<T>, before: seq<Operation<T>>, after: seq<Operation<T>>)
    ensures var then_, end := Run(log, before), Run(log, before + [Flush] + after);
      if then_.target.Some? && then_.pending != [] then
        && |end.batches| > |then_.batches|
        && end.batches[|then_.batches|].target == then_.target.value
        && end.batches[|then_.batches|].entries == then_.pending[..Min(|then_.pending|, 100)]
      else Run(log, before + [Flush]) == then_
  {
    RunAppend(log, before, [Flush]);
    RunAppend(log, before + [Flush], after);
    var then_ := Run(log, before);
    FlushesUnroll(then_, 1);
    assert Flushes<T>(1) == [Flush] && Run(Step(then_, Flush), Flushes(0)) == Step(then_, Flush);
    BatchesStay(Run(log, before + [Flush]), after);
  }

  lemma {:induction false} FlushTargets<T>(log: Log<T>, n: nat, t: Target)
    requires log.target == Some(t)
    ensures var after := Run(log, Flushes(n));
      |log.batches| <= |after.batches|
      && forall k | |log.batches| <= k < |after.batches| :: after.batches[k].target == t
    decreases n
  {
    if n > 0 {
      FlushesUnroll(log, n);
      FlushTargets(Step(log, Flush), n - 1, t);
      BatchesStay(Step(log, Flush), Flushes(n - 1));
    }
  }

  /** Setting a client makes everything that waits go out to it, in order, within one flush for every 100
      records. */
  lemma SentAfterSetClient<T>(log: Log<T>, t: Target, n: nat)
    requires n * 100 >= |log.pending|
    ensures var after := Run(log, [SetClient(Some(t))] + Flushes(n));
      && after.pending == []
      && Flatten(EntriesOf(after.batches)) == Flatten(EntriesOf(log.batches)) + log.pending
      && |log.batches| <= |after.batches|
      && forall k | |log.batches| <= k < |after.batches| :: after.batches[k].target == t
  {
    var ops := [Operation.SetClient(Some(t))] + Flushes<T>(n);
    var set_ := Step(log, SetClient(Some(t)));
    assert ops[1..] == Flushes(n) && Run(log, ops) == Run(set_, Flushes(n));
    Drain(set_, n);
    assert set_.pending[..|set_.pending|] == set_.pending;
    FlushTargets(set_, n, t);
  }
}
