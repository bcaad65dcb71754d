/** Sender and receiver as two processes joined by two byte queues, under every schedule. */
module ScpLockstep {
  import opened Prelude
  import opened ScpStore
  import opened ScpReceiver
  import opened ScpSender
  import opened ScpPacing

  datatype Sender =
    | Awaiting(rest: seq<string>)
    | Writing(left: string, rest: seq<string>)
    | Stopped(ok: bool)

  /** `wire` is all the sender wrote, of which the receiver took `taken` bytes;
      of what the receiver wrote the sender heard `heard` bytes. */
  datatype System = System(
    sender: Sender, script: Script, wire: string, taken: nat, receiver: Receiver, heard: nat)

  datatype Step = Write | Hear | HearEnd | Take | TakeEnd

  predicate InBounds(s: System) {
    s.taken <= |s.wire| && s.heard <= |s.receiver.out|
  }

  function Unread(s: System): string
    requires InBounds(s)
  {
    s.wire[s.taken..]
  }

  function Replies(s: System): string
    requires InBounds(s)
  {
    s.receiver.out[s.heard..]
  }

  predicate Enabled(s: System, step: Step) {
    InBounds(s) &&
    match step
    case Write => s.sender.Writing? && s.sender.left != ""
    case Hear => s.sender.Awaiting? && Replies(s) != ""
    case HearEnd => s.sender.Awaiting? && Replies(s) == "" && s.receiver.phase.Halted?
    case Take => !s.receiver.phase.Halted? && Unread(s) != ""
    case TakeEnd => !s.receiver.phase.Halted? && Unread(s) == "" && s.sender.Stopped?
  }

  function NextMessage(rest: seq<string>, ok: bool): Sender {
    if rest == [] then Stopped(ok) else Writing(rest[0], rest[1..])
  }

  /** readSCPAck: a zero byte, or an error line that ends the transfer. */
  function HearReply(s: System): System
    requires InBounds(s) && s.sender.Awaiting? && Replies(s) != ""
  {
    if Replies(s)[0] == '\0' then
      s.(sender := NextMessage(s.sender.rest, s.script.ok), heard := s.heard + 1)
    else
      var text := Replies(s)[1..];
      var end := IndexOf(text, '\n');
      s.(sender := Stopped(false), heard := s.heard + 1 + if end < |text| then end + 1 else end)
  }

  function Perform(s: System, step: Step): System
    requires Enabled(s, step)
  {
    match step
    case Write =>
      var left := s.sender.left[1..];
      s.(wire := s.wire + [s.sender.left[0]],
         sender := if left == "" then Awaiting(s.sender.rest) else s.sender.(left := left))
    case Hear => HearReply(s)
    case HearEnd => s.(sender := Stopped(false))
    case Take => s.(receiver := Feed(s.receiver, Unread(s)[0]), taken := s.taken + 1)
    case TakeEnd => s.(receiver := EndOfInput(s.receiver))
  }

  predicate Schedulable(s: System, steps: seq<Step>)
    decreases steps
  {
    steps != [] ==> Enabled(s, steps[0]) && Schedulable(Perform(s, steps[0]), steps[1..])
  }

  function Run(s: System, steps: seq<Step>): System
    requires Schedulable(s, steps)
    decreases steps
  {
    if steps == [] then s else Run(Perform(s, steps[0]), steps[1..])
  }

  function Start(script: Script, receiver: Receiver): System {
    System(Awaiting(script.messages), script, "", 0, receiver, 0)
  }

  /** Bytes the sender has still to write if every reply is an acknowledgement. */
  function Unwritten(sender: Sender): string {
    match sender
    case Awaiting(rest) => Flatten(rest)
    case Writing(left, rest) => left + Flatten(rest)
    case Stopped(_) => ""
  }

  // ---- The invariant ----

  /** The only shapes of the two queues: at most one message, or one reply, is in flight. */
  ghost predicate Paced(s: System)
    requires InBounds(s)
  {
    match s.sender
    case Writing(left, rest) =>
      Replies(s) == "" && left != "" && Mid(s.receiver, Unread(s) + left, rest)
    case Awaiting(rest) =>
      || (Replies(s) == ACK && Unread(s) == "" && Boundary(s.receiver, rest))
      || (Replies(s) == "" && Unread(s) != "" && Mid(s.receiver, Unread(s), rest))
      || (IsErrorReply(Replies(s)) && Unread(s) == "" && s.receiver.phase == Halted(false))
    case Stopped(ok) => Replies(s) == "" && Unread(s) == ""
  }

  predicate TrueHistory(s: System, r0: Receiver)
    requires InBounds(s)
  {
    && (s.sender == Stopped(false) || s.wire + Unwritten(s.sender) == Flatten(s.script.messages))
    && (s.sender == Stopped(false) ==> FeedAll(r0, s.wire[..s.taken]).phase == Halted(false) || !s.script.ok)
    && (s.sender == Stopped(true) ==> s.script.ok)
    && s.wire <= Flatten(s.script.messages)
    && (|| s.receiver == FeedAll(r0, s.wire[..s.taken])
        || (s.sender.Stopped? && s.receiver == EndOfInput(FeedAll(r0, s.wire))))
  }

  ghost predicate Inv(s: System, r0: Receiver) {
    InBounds(s) && Paced(s) && TrueHistory(s, r0)
  }

  /** What a tree transfer starts from: the receiver has written its first acknowledgement. */
  lemma StartInv(t: Tree, opts: Options, fs: Store, target: Path, isDir: bool, recursive: bool)
    requires Representable(t)
    ensures var r0 := Fresh(fs, target, isDir, recursive);
            Inv(Start(TreeScript(t, opts), r0), r0)
  {
    hide Boundary, Settled, TreeScript, Mid;
    var r0 := Fresh(fs, target, isDir, recursive);
    var script := TreeScript(t, opts);
    forall fs': Store, n: nat ensures Boundary(Settled(r0, fs', n), []) {
      NothingLeft(Settled(r0, fs', n));
    }
    PacedTree(r0, t, opts, []);
    assert After(script, []) == script.messages;
    assert "" + Flatten(script.messages) == Flatten(script.messages);
    var s := Start(script, r0);
    assert s.wire[..s.taken] == "" && s.wire[s.taken..] == "" && s.receiver.out[0..] == ACK;
  }

  lemma WriteInv(s: System, r0: Receiver)
    requires Inv(s, r0) && Enabled(s, Write)
    ensures Inv(Perform(s, Write), r0)
  {
    hide Mid, Boundary, Feed, FeedAll, EndOfInput;
    var s' := Perform(s, Write);
    var left := s.sender.left;
    assert Unread(s') == Unread(s) + [left[0]];
    assert left == [left[0]] + left[1..];
    assert Unread(s) + left == Unread(s') + left[1..];
    assert s'.wire[..s'.taken] == s.wire[..s.taken];
    assert s'.wire + Unwritten(s'.sender) == s.wire + Unwritten(s.sender);
    assert left[1..] == "" ==> Unread(s') + left[1..] == Unread(s');
  }

  lemma HearInv(s: System, r0: Receiver)
    requires Inv(s, r0) && Enabled(s, Hear)
    ensures Inv(Perform(s, Hear), r0)
  {
    hide Mid, Feed, FeedAll, EndOfInput;
    var s' := Perform(s, Hear);
    if Replies(s) == ACK {
      assert Replies(s') == "";
      var rest := s.sender.rest;
      if rest != [] {
        assert Unread(s') + rest[0] == rest[0];
        MidNotEmpty(s.receiver, rest[0], rest[1..]);
      } else {
        assert s.wire + "" == s.wire;
      }
    } else {
      var e :| Replies(s) == ErrorReply(e);
      ErrorReplyShape(e);
      assert Replies(s') == "";
    }
  }

  lemma MidNotEmpty(r: Receiver, left: string, rest: seq<string>)
    requires Mid(r, left, rest)
    ensures left != "" && !r.phase.Halted?
  {
  }

  lemma ErrorReplyShape(e: Error)
    ensures var reply := ErrorReply(e);
            reply[0] != '\0' && IndexOf(reply[1..], '\n') == |reply| - 2
  {
    assert ErrorReply(e)[1..] == ErrorText(e) + "\n";
    assert ErrorText(e) + ['\n'] + "" == ErrorText(e) + "\n";
    IndexOfConcat(ErrorText(e), '\n', "");
  }

  lemma TakeInv(s: System, r0: Receiver)
    requires Inv(s, r0) && Enabled(s, Take)
    ensures Inv(Perform(s, Take), r0)
  {
    hide Boundary, Feed, FeedAll, EndOfInput;
    var s' := Perform(s, Take);
    var b := Unread(s)[0];
    var coming := Unread(s) + if s.sender.Writing? then s.sender.left else "";
    assert s.sender.Awaiting? ==> coming == Unread(s);
    assert coming[0] == b;
    MidStep(s.receiver, coming, s.sender.rest);
    assert Unread(s') == Unread(s)[1..];
    assert s.sender.Writing? ==> coming[1..] == Unread(s') + s.sender.left;
    assert s'.wire[..s'.taken] == s.wire[..s.taken] + [b];
    FeedAllConcat(r0, s.wire[..s.taken], [b]);
    FeedOne(s.receiver, b);
  }

  /** One byte of a message that is not its last changes nothing visible; the last is answered. */
  lemma MidStep(r: Receiver, left: string, rest: seq<string>)
    requires Mid(r, left, rest)
    ensures left != "" && |r.out| <= |Feed(r, left[0]).out|
    ensures |left| > 1 ==> Feed(r, left[0]).out == r.out && Mid(Feed(r, left[0]), left[1..], rest)
    ensures |left| == 1 ==>
              var next := Feed(r, left[0]);
              && next.out[..|r.out|] == r.out
              && (|| (next.out[|r.out|..] == ACK && Boundary(next, rest))
                  || (IsErrorReply(next.out[|r.out|..]) && next.phase == Halted(false)))
  {
    hide Feed, Boundary;
    var next := Feed(r, left[0]);
    if |left| == 1 && next.out == r.out + ACK {
      assert next.out[|r.out|..] == ACK;
    }
  }

  lemma EndsInv(s: System, r0: Receiver, step: Step)
    requires Inv(s, r0) && Enabled(s, step) && (step.HearEnd? || step.TakeEnd?)
    ensures Inv(Perform(s, step), r0)
  {
    hide Mid, Boundary, Feed, FeedAll;
    if s.sender.Awaiting? && Replies(s) == "" {
      MidNotEmpty(s.receiver, Unread(s), s.sender.rest);
    }
    assert step.TakeEnd?;
    assert s.wire[..s.taken] == s.wire;
    EndKeepsOutput(s.receiver);
    EndKeepsOutput(FeedAll(r0, s.wire));
  }

  lemma {:induction false} EndKeepsOutput(r: Receiver)
    ensures EndOfInput(r).out == r.out && EndOfInput(r).phase.Halted?
    decreases |r.stack|
  {
    hide FinishEntry;
    if r.phase.InLine? && r.top.received && r.stack != [] {
      var caller := r.stack[|r.stack| - 1];
      var up := r.(stack := r.stack[..|r.stack| - 1], top := caller.frame);
      FinishKeepsOutput(up, caller.dest, caller.mode);
      EndKeepsOutput(FinishEntry(up, caller.dest, caller.mode));
    }
  }

  lemma StepInv(s: System, r0: Receiver, step: Step)
    requires Inv(s, r0) && Enabled(s, step)
    ensures Inv(Perform(s, step), r0)
  {
    hide *;
    match step
    case Write => WriteInv(s, r0);
    case Hear => HearInv(s, r0);
    case Take => TakeInv(s, r0);
    case HearEnd => EndsInv(s, r0, step);
    case TakeEnd => EndsInv(s, r0, step);
  }

  // ---- Whole runs ----

  function Measure(s: System): nat {
    2 * |Unwritten(s.sender)|
    + (if s.taken <= |s.wire| then |s.wire| - s.taken else 0)
    + (match s.sender case Awaiting(rest) => 2 * |rest| + 1 case Writing(_, rest) => 2 * |rest| + 2 case Stopped(_) => 0)
    + (if s.receiver.phase.Halted? then 0 else 1)
  }

  lemma StepTerminates(s: System, r0: Receiver, step: Step)
    requires Inv(s, r0) && Enabled(s, step)
    ensures Measure(Perform(s, step)) < Measure(s)
  {
    hide Mid, Boundary, Feed, FeedAll;
    if step.TakeEnd? {
      EndKeepsOutput(s.receiver);
    }
  }

  lemma {:induction false} RunInv(s: System, r0: Receiver, steps: seq<Step>)
    requires Inv(s, r0) && Schedulable(s, steps)
    ensures Inv(Run(s, steps), r0)
    ensures Measure(Run(s, steps)) + |steps| <= Measure(s)
    ensures Run(s, steps).script == s.script
    decreases steps
  {
    hide Inv, Measure;
    if steps != [] {
      StepInv(s, r0, steps[0]);
      StepTerminates(s, r0, steps[0]);
      RunInv(Perform(s, steps[0]), r0, steps[1..]);
    }
  }

  predicate SenderWaits(s: System)
    requires InBounds(s)
  {
    s.sender.Awaiting? && Replies(s) == ""
  }

  predicate ReceiverWaits(s: System)
    requires InBounds(s)
  {
    !s.receiver.phase.Halted? && Unread(s) == ""
  }

  predicate Finished(s: System) {
    s.sender.Stopped? && s.receiver.phase.Halted?
  }

  /** In every state every schedule can reach: at most one reply is unheard, at most one message is
      unread, the two sides never wait for each other, and some step is possible until both are done. */
  lemma Lockstep(t: Tree, opts: Options, fs: Store, target: Path, isDir: bool, recursive: bool, steps: seq<Step>)
    requires Representable(t)
    requires Schedulable(Start(TreeScript(t, opts), Fresh(fs, target, isDir, recursive)), steps)
    ensures var s0 := Start(TreeScript(t, opts), Fresh(fs, target, isDir, recursive));
            var s := Run(s0, steps);
            && InBounds(s)
            && (Replies(s) == "" || Replies(s) == ACK || IsErrorReply(Replies(s)))
            && (Replies(s) != "" ==> Unread(s) == "" && s.sender.Awaiting?)
            && !(SenderWaits(s) && ReceiverWaits(s))
            && (!Finished(s) ==> exists step :: Enabled(s, step))
            && |steps| <= Measure(s0)
  {
    var r0 := Fresh(fs, target, isDir, recursive);
    var s0 := Start(TreeScript(t, opts), r0);
    StartInv(t, opts, fs, target, isDir, recursive);
    RunInv(s0, r0, steps);
    InvIsLockstep(Run(s0, steps), r0);
  }

  lemma InvIsLockstep(s: System, r0: Receiver)
    requires Inv(s, r0)
    ensures Replies(s) == "" || Replies(s) == ACK || IsErrorReply(Replies(s))
    ensures Replies(s) != "" ==> Unread(s) == "" && s.sender.Awaiting?
    ensures !(SenderWaits(s) && ReceiverWaits(s))
    ensures !Finished(s) ==> exists step :: Enabled(s, step)
  {
    hide Mid, Boundary, Feed, FeedAll, EndOfInput;
    if s.sender.Awaiting? && Unread(s) != "" && Replies(s) == "" {
      MidNotEmpty(s.receiver, Unread(s), s.sender.rest);
    }
    var step := match s.sender
      case Writing(_, _) => Write
      case Awaiting(_) => if Replies(s) != "" then Hear else Take
      case Stopped(_) => TakeEnd;
    assert !Finished(s) ==> Enabled(s, step);
  }

  // ---- Error-free transfers ----

  lemma EndOfHalted(r: Receiver)
    requires r.phase.Halted?
    ensures EndOfInput(r) == r
  {
  }

  /** A finished run that met no refusal: queues drained, every byte of the script consumed. */
  lemma FinishedOutcome(s: System, r0: Receiver)
    requires Inv(s, r0) && Finished(s) && s.script.ok
    requires FeedAll(r0, Flatten(s.script.messages)).phase != Halted(false)
    ensures s.sender == Stopped(true) && Unread(s) == "" && Replies(s) == ""
    ensures s.receiver == Total(r0, Flatten(s.script.messages))
  {
    hide Mid, Boundary, Feed, EndOfInput, FeedAll;
    var all := Flatten(s.script.messages);
    assert s.wire[..s.taken] == s.wire;
    if s.sender == Stopped(false) {
      var left := all[|s.wire|..];
      assert all == s.wire + left;
      FeedAllConcat(r0, s.wire, left);
      FeedHalted(FeedAll(r0, s.wire), left);
    }
    assert s.wire + "" == s.wire;
    if s.receiver == FeedAll(r0, s.wire) {
      EndOfHalted(s.receiver);
    }
  }
}
