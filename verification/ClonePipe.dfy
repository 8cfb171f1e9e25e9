/** How Capture streams one partition: a goroutine runs the clone process into a synchronous pipe,
    closes the pipe and reports on a one-slot channel; the HTTP transport reads the pipe as the
    request body; Capture waits for the upload and then for the report. One action is one atomic
    step of one of the three, and a run is any interleaving of enabled actions. */
module ClonePipe {
  import opened Wrappers

  datatype Outcome = Ok | Failed

  /** The goroutine: the process runs, has exited, the pipe is closed, the report is sent. */
  datatype Writer = Running | Exited(out: Outcome) | PipeClosed(out: Outcome) | Done(out: Outcome)

  /** The request body as the transport sees it. */
  datatype Body = Open | Ended | Broken | Closed

  datatype Capturer = Uploading | Waiting | Advanced | Aborted

  datatype State = State(
    unsent: seq<Byte>,         // output the process has yet to write
    inFlight: seq<Byte>,       // what readers have yet to take of the write in progress
    refused: bool,             // a write came back with "closed pipe"
    received: seq<Byte>,       // what the transport has read
    writer: Writer,
    body: Body,
    slot: Option<Outcome>,     // errCh, of capacity one
    upload: Option<Outcome>,   // what UploadPart returned
    capturer: Capturer)

  datatype Action =
    | Write(n: nat)          // the process output goes to the pipe in chunks of any size
    | Read(n: nat)           // the transport reads part or all of the chunk
    | Refuse                 // the pending write fails because the read side is closed
    | Exit(out: Outcome)     // imaging.Clone returns
    | ClosePipe              // pw.CloseWithError(err)
    | Report                 // errCh <- err
    | SeeEnd                 // the transport reads end of file, or the error of the writer
    | CloseBody              // the transport closes the request body
    | Return(out: Outcome)   // UploadPart returns, perhaps before the body was read
    | Receive                // <-errCh

  function Start(image: seq<Byte>): State {
    State(image, [], false, [], Running, Open, None, None, Uploading)
  }

  predicate Enabled(s: State, a: Action) {
    match a
    case Write(n) => s.writer == Running && s.inFlight == [] && !s.refused && 1 <= n <= |s.unsent|
    case Read(n) => s.body == Open && 1 <= n <= |s.inFlight|
    case Refuse => s.body == Closed && s.inFlight != []
    case Exit(out) =>
      // Wait returns nil only when the process succeeded and all its output was copied.
      s.writer == Running && s.inFlight == [] && (out == Ok ==> s.unsent == [] && !s.refused)
    case ClosePipe => s.writer.Exited?
    case Report => s.writer.PipeClosed? && s.slot.None?
    case SeeEnd => s.body == Open && s.inFlight == [] && (s.writer.PipeClosed? || s.writer.Done?)
    case CloseBody => s.body != Closed
    case Return(out) => s.capturer == Uploading
    case Receive => s.capturer == Waiting && s.slot.Some?
  }

  function Apply(s: State, a: Action): State
    requires Enabled(s, a)
  {
    match a
    case Write(n) => s.(inFlight := s.unsent[..n], unsent := s.unsent[n..])
    case Read(n) => s.(received := s.received + s.inFlight[..n], inFlight := s.inFlight[n..])
    case Refuse => s.(inFlight := [], refused := true)
    case Exit(out) => s.(writer := Exited(out))
    case ClosePipe => s.(writer := PipeClosed(s.writer.out))
    case Report => s.(slot := Some(s.writer.out), writer := Done(s.writer.out))
    case SeeEnd => s.(body := if s.writer.out == Ok then Ended else Broken)
    case CloseBody => s.(body := Closed)
    case Return(out) => s.(upload := Some(out), capturer := if out == Ok then Waiting else Aborted)
    case Receive => s.(slot := None, capturer := if s.slot.value == Ok then Advanced else Aborted)
  }

  predicate IsRun(s: State, actions: seq<Action>)
    decreases |actions|
  {
    actions == [] || (Enabled(s, actions[0]) && IsRun(Apply(s, actions[0]), actions[1..]))
  }

  function After(s: State, actions: seq<Action>): State
    requires IsRun(s, actions)
    decreases |actions|
  {
    if actions == [] then s else After(Apply(s, actions[0]), actions[1..])
  }

  predicate Final(s: State) {
    (s.capturer == Advanced || s.capturer == Aborted) && s.writer.Done? && s.body == Closed
  }

  // ---------------------------------------------------------------- safety

  /** The bytes: nothing is lost, doubled or reordered, and a refused write is the only gap. */
  predicate BytesInvariant(image: seq<Byte>, s: State) {
    && (if s.refused then s.received <= image && s.inFlight == []
        else s.received + s.inFlight + s.unsent == image)
    && (s.writer != Running ==> s.inFlight == [])
    && (s.writer != Running && s.writer.out == Ok ==> s.unsent == [] && !s.refused)
    && (s.body == Ended ==> s.received == image)
  }

  /** The report is sent once, by a goroutine that is done, and then waits or is taken; and where
      Capture stands follows from the two results. */
  predicate ControlInvariant(s: State) {
    && (s.slot.Some? ==> s.writer == Done(s.slot.value))
    && (s.writer.Done? && s.slot.None? <==> s.upload == Some(Ok) && s.capturer != Waiting)
    && (s.capturer == Uploading <==> s.upload.None?)
    && (s.capturer == Waiting ==> s.upload == Some(Ok))
    && (s.capturer == Advanced <==> s.upload == Some(Ok) && s.capturer != Waiting && s.writer == Done(Ok))
  }

  predicate Invariant(image: seq<Byte>, s: State) {
    BytesInvariant(image, s) && ControlInvariant(s)
  }

  lemma StepBytes(image: seq<Byte>, s: State, a: Action)
    requires BytesInvariant(image, s) && Enabled(s, a)
    ensures BytesInvariant(image, Apply(s, a))
  {
    match a {
      case Write(n) => assert s.unsent == s.unsent[..n] + s.unsent[n..];
      case Read(n) => assert s.inFlight == s.inFlight[..n] + s.inFlight[n..];
      case _ =>
    }
  }

  lemma StepControl(s: State, a: Action)
    requires ControlInvariant(s) && Enabled(s, a)
    ensures ControlInvariant(Apply(s, a))
  {
  }

  lemma StepInvariant(image: seq<Byte>, s: State, a: Action)
    requires Invariant(image, s) && Enabled(s, a)
    ensures Invariant(image, Apply(s, a))
  {
    StepBytes(image, s, a);
    StepControl(s, a);
  }

  lemma {:induction false} RunInvariant(image: seq<Byte>, s: State, actions: seq<Action>)
    requires Invariant(image, s) && IsRun(s, actions)
    ensures Invariant(image, After(s, actions))
    decreases |actions|
  {
    if actions != [] {
      StepInvariant(image, s, actions[0]);
      RunInvariant(image, Apply(s, actions[0]), actions[1..]);
    }
  }

  /** No truncated image is accepted: when Capture moves on, the transport has read exactly the
      bytes of a clone that succeeded; at any other time it has read a prefix of the output. */
  lemma NoTruncatedImage(image: seq<Byte>, actions: seq<Action>)
    requires IsRun(Start(image), actions)
    ensures var s := After(Start(image), actions);
      && s.received <= image
      && (s.capturer == Advanced ==> s.received == image && s.writer == Done(Ok) && s.upload == Some(Ok))
      && (s.body == Ended ==> s.received == image)
  {
    RunInvariant(image, Start(image), actions);
  }

  /** Once everything has come to rest, Capture has moved on exactly when both sides succeeded. */
  lemma AdvancedIffBothSucceeded(image: seq<Byte>, actions: seq<Action>)
    requires IsRun(Start(image), actions) && Final(After(Start(image), actions))
    ensures var s := After(Start(image), actions);
      s.capturer == Advanced <==> s.upload == Some(Ok) && s.writer == Done(Ok)
  {
    RunInvariant(image, Start(image), actions);
  }

  // ---------------------------------------------------------------- progress

  /** The goroutine's send never blocks, whether or not Capture is still there to receive. */
  lemma ReportNeverBlocks(image: seq<Byte>, actions: seq<Action>)
    requires IsRun(Start(image), actions) && After(Start(image), actions).writer.PipeClosed?
    ensures Enabled(After(Start(image), actions), Report)
  {
    RunInvariant(image, Start(image), actions);
  }

  /** No reachable state is stuck before the end. */
  lemma NeverStuck(image: seq<Byte>, actions: seq<Action>) returns (next: Action)
    requires IsRun(Start(image), actions) && !Final(After(Start(image), actions))
    ensures Enabled(After(Start(image), actions), next)
  {
    RunInvariant(image, Start(image), actions);
    var s := After(Start(image), actions);
    next :=
      if s.body != Closed then CloseBody
      else if s.inFlight != [] then Refuse
      else match s.writer
        case Running => Exit(Failed)
        case Exited(_) => ClosePipe
        case PipeClosed(_) => Report
        case Done(_) => if s.capturer == Uploading then Return(Failed) else Receive;
  }

  /** The assumption on the transport is needed: after a failed upload a blocked write waits for it alone. */
  lemma OnlyTransportUnblocks(image: seq<Byte>, actions: seq<Action>, a: Action)
    requires IsRun(Start(image), actions)
    requires var s := After(Start(image), actions);
      s.capturer == Aborted && s.inFlight != [] && Enabled(s, a)
    ensures a.Read? || a.CloseBody? || a.Refuse?
    ensures a.Refuse? ==> After(Start(image), actions).body == Closed
  {
    RunInvariant(image, Start(image), actions);
  }

  function Remaining(s: State): nat {
    2 * |s.unsent| + |s.inFlight|
    + (match s.writer case Running => 3 case Exited(_) => 2 case PipeClosed(_) => 1 case Done(_) => 0)
    + (match s.body case Open => 2 case Closed => 0 case _ => 1)
    + (match s.capturer case Uploading => 2 case Waiting => 1 case _ => 0)
  }

  /** Every step uses something up, so every run ends: its length is bounded by the image. */
  lemma {:induction false} RunsAreFinite(s: State, actions: seq<Action>)
    requires IsRun(s, actions)
    ensures |actions| + Remaining(After(s, actions)) <= Remaining(s)
    decreases |actions|
  {
    if actions != [] {
      assert Remaining(Apply(s, actions[0])) < Remaining(s);
      RunsAreFinite(Apply(s, actions[0]), actions[1..]);
    }
  }

  lemma {:induction false} OneMoreStep(s: State, actions: seq<Action>, a: Action)
    requires IsRun(s, actions) && Enabled(After(s, actions), a)
    ensures IsRun(s, actions + [a]) && After(s, actions + [a]) == Apply(After(s, actions), a)
    decreases |actions|
  {
    if actions == [] {
      assert IsRun(Apply(s, a), []);
    } else {
      assert (actions + [a])[1..] == actions[1..] + [a];
      OneMoreStep(Apply(s, actions[0]), actions[1..], a);
    }
  }

  /** From wherever an interleaving has got to, it can be brought to its end. */
  lemma {:induction false} CanFinish(image: seq<Byte>, actions: seq<Action>) returns (rest: seq<Action>)
    requires IsRun(Start(image), actions)
    ensures IsRun(Start(image), actions + rest) && Final(After(Start(image), actions + rest))
    decreases Remaining(After(Start(image), actions))
  {
    var s := After(Start(image), actions);
    if Final(s) {
      rest := [];
      assert actions + rest == actions;
    } else {
      var next := NeverStuck(image, actions);
      OneMoreStep(Start(image), actions, next);
      assert Remaining(Apply(s, next)) < Remaining(s);
      rest := CanFinish(image, actions + [next]);
      Associative(actions, [next], rest);
      rest := [next] + rest;
    }
  }

  /** The states of an upload on which nothing fails. */
  function Stage(image: seq<Byte>, i: nat): State {
    if i == 0 then Start(image)
    else if i == 1 then State([], image, false, [], Running, Open, None, None, Uploading)
    else
      var out := if i < 3 then Running else if i == 3 then Exited(Ok) else if i < 6 then PipeClosed(Ok) else Done(Ok);
      var body := if i < 5 then Open else if i < 7 then Ended else Closed;
      var waiting := 6 <= i < 9;
      State([], [], false, image, out, body, if waiting then Some(Ok) else None, if i < 8 then None else Some(Ok),
            if i < 8 then Uploading else if i == 8 then Waiting else Advanced)
  }

  /** The steps that lead from each of them to the next. */
  function StepAt(image: seq<Byte>, i: nat): Action {
    match i
    case 0 => Write(|image|)
    case 1 => Read(|image|)
    case 2 => Exit(Ok)
    case 3 => ClosePipe
    case 4 => SeeEnd
    case 5 => Report
    case 6 => CloseBody
    case 7 => Return(Ok)
    case _ => Receive
  }

  /** An empty image is past the first two steps from the start. */
  function FirstStep(image: seq<Byte>): (i: nat)
    ensures i <= 2
  {
    if image == [] then 2 else 0
  }

  /** An upload on which nothing fails. */
  function SmoothRun(image: seq<Byte>): (run: seq<Action>)
    ensures |run| == 9 - FirstStep(image)
  {
    seq(9 - FirstStep(image), k requires 0 <= k < 9 - FirstStep(image) => StepAt(image, FirstStep(image) + k))
  }

  lemma StageStep(image: seq<Byte>, i: nat)
    requires FirstStep(image) <= i < 9
    ensures Enabled(Stage(image, i), StepAt(image, i))
    ensures Apply(Stage(image, i), StepAt(image, i)) == Stage(image, i + 1)
  {
    assert image[..|image|] == image && image[|image|..] == [] && [] + image == image;
  }

  lemma {:induction false} StageAfter(image: seq<Byte>, n: nat)
    requires n <= |SmoothRun(image)|
    ensures IsRun(Start(image), SmoothRun(image)[..n])
    ensures After(Start(image), SmoothRun(image)[..n]) == Stage(image, FirstStep(image) + n)
  {
    var steps := SmoothRun(image);
    if n > 0 {
      var i: nat := FirstStep(image) + n - 1;
      StageAfter(image, n - 1);
      StageStep(image, i);
      assert steps[..n] == steps[..n - 1] + [StepAt(image, i)];
      Continues(Start(image), steps[..n - 1], StepAt(image, i), Stage(image, i), Stage(image, i + 1));
    } else {
      StageFirst(image);
    }
  }

  lemma StageFirst(image: seq<Byte>)
    ensures Stage(image, FirstStep(image)) == Start(image)
  {
  }

  lemma Continues(start: State, before: seq<Action>, a: Action, s: State, s': State)
    requires IsRun(start, before) && After(start, before) == s && Enabled(s, a) && Apply(s, a) == s'
    ensures IsRun(start, before + [a]) && After(start, before + [a]) == s'
  {
    OneMoreStep(start, before, a);
  }

  /** Every image, the empty one included, gets through when nothing fails. */
  lemma CanSucceed(image: seq<Byte>)
    ensures var run := SmoothRun(image);
      && IsRun(Start(image), run) && Final(After(Start(image), run))
      && After(Start(image), run).upload == Some(Ok) && After(Start(image), run).writer == Done(Ok)
      && After(Start(image), run).capturer == Advanced
  {
    var run := SmoothRun(image);
    StageAfter(image, |run|);
    assert run[..|run|] == run;
  }

  // ---------------------------------------------------------------- what can go wrong

  function Steps(s: State, actions: seq<Action>): Option<State>
    decreases |actions|
  {
    if actions == [] then Some(s)
    else if Enabled(s, actions[0]) then Steps(Apply(s, actions[0]), actions[1..])
    else None
  }

  lemma {:induction false} StepsIsRun(s: State, actions: seq<Action>)
    requires Steps(s, actions).Some?
    ensures IsRun(s, actions) && After(s, actions) == Steps(s, actions).value
    decreases |actions|
  {
    if actions != [] {
      StepsIsRun(Apply(s, actions[0]), actions[1..]);
    }
  }

  lemma OneStep(s: State, a: Action, rest: seq<Action>)
    requires Enabled(s, a)
    ensures Steps(s, [a] + rest) == Steps(Apply(s, a), rest)
  {
    assert ([a] + rest)[1..] == rest;
  }

  /** A connection may break after any part of an image: the server then holds that prefix, the write is
      refused, the clone fails, and Capture gives up. */
  lemma BrokenUpload(image: seq<Byte>, k: nat) returns (run: seq<Action>)
    requires 1 <= k < |image|
    ensures IsRun(Start(image), run)
    ensures var s := After(Start(image), run); Final(s) && s.received == image[..k] && s.capturer == Aborted
  {
    var s0 := Start(image);
    var end := [Exit(Failed), ClosePipe, Report];
    run := [Write(|image|)] + ([Read(k)] + ([CloseBody] + ([Return(Failed)] + ([Refuse] + end))));
    var s1 := Apply(s0, Write(|image|));
    assert s1.inFlight == image;
    var s2 := Apply(s1, Read(k));
    assert s2.received == image[..k] && s2.inFlight == image[k..];
    var s3 := Apply(s2, CloseBody);
    var s4 := Apply(s3, Return(Failed));
    var s5 := Apply(s4, Refuse);
    OneStep(s0, Write(|image|), [Read(k)] + ([CloseBody] + ([Return(Failed)] + ([Refuse] + end))));
    OneStep(s1, Read(k), [CloseBody] + ([Return(Failed)] + ([Refuse] + end)));
    OneStep(s2, CloseBody, [Return(Failed)] + ([Refuse] + end));
    OneStep(s3, Return(Failed), [Refuse] + end);
    OneStep(s4, Refuse, end);
    FailedEnd(s5);
    StepsIsRun(s0, run);
  }

  lemma FailedEnd(s: State)
    requires s.writer == Running && s.inFlight == [] && s.slot.None?
    ensures Steps(s, [Exit(Failed), ClosePipe, Report]) == Some(s.(writer := Done(Failed), slot := Some(Failed)))
  {
    var s1 := Apply(s, Exit(Failed));
    var s2 := Apply(s1, ClosePipe);
    OneStep(s, Exit(Failed), [ClosePipe] + [Report]);
    OneStep(s1, ClosePipe, [Report]);
    OneStep(s2, Report, []);
    assert [Exit(Failed)] + ([ClosePipe] + [Report]) == [Exit(Failed), ClosePipe, Report];
    assert [Report] + [] == [Report];
  }

  /** A server that accepts an upload before it has read it is not believed: the upload succeeds, nothing of
      the image arrives, and Capture gives up because the clone failed. */
  lemma EarlyAnswer(image: seq<Byte>) returns (run: seq<Action>)
    ensures IsRun(Start(image), run)
    ensures var s := After(Start(image), run);
      Final(s) && s.upload == Some(Ok) && s.received == [] && s.capturer == Aborted
  {
    var s0 := Start(image);
    var end := [Exit(Failed), ClosePipe, Report];
    run := [Return(Ok)] + ([CloseBody] + (end + [Receive]));
    var s1 := Apply(s0, Return(Ok));
    var s2 := Apply(s1, CloseBody);
    OneStep(s0, Return(Ok), [CloseBody] + (end + [Receive]));
    OneStep(s1, CloseBody, end + [Receive]);
    FailedEnd(s2);
    StepsAppend(s2, end, Receive);
    StepsIsRun(s0, run);
  }

  lemma {:induction false} StepsAppend(s: State, actions: seq<Action>, a: Action)
    requires Steps(s, actions).Some? && Enabled(Steps(s, actions).value, a)
    ensures Steps(s, actions + [a]) == Some(Apply(Steps(s, actions).value, a))
    decreases |actions|
  {
    if actions == [] {
      OneStep(s, a, []);
      assert [] + [a] == [a] + [];
    } else {
      assert (actions + [a])[1..] == actions[1..] + [a];
      StepsAppend(Apply(s, actions[0]), actions[1..], a);
    }
  }
}
