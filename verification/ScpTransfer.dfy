/** The promise of a transfer: under every schedule the sent tree arrives, and nothing else changes. */
module ScpTransfer {
  import opened Prelude
  import opened ScpStore
  import opened ScpReceiver
  import opened ScpSender
  import opened ScpPacing
  import opened ScpRoundTrip
  import opened ScpOverlay
  import opened ScpLockstep
  import opened ScpSenderProcess

  /** Where the receiver puts the root of the sent tree. */
  function Place(target: Path, isDir: bool, name: string): Path {
    if isDir then target + [name] else target
  }

  lemma SettledEnds(fs: Store, target: Path, isDir: bool, recursive: bool, fs': Store, acks: nat)
    ensures var done := Settled(Fresh(fs, target, isDir, recursive), fs', acks);
            && done.phase != Halted(false)
            && EndOfInput(done).phase == Halted(true)
            && EndOfInput(done).fs == fs'
            && EndOfInput(done).out == Acks(1 + acks)
  {
    AcksConcat(1, acks);
  }

  /** Feeding the receiver everything the sender writes, for directory and for plain targets. */
  lemma RoundTrip(t: Tree, opts: Options, fs: Store, target: Path, isDir: bool, recursive: bool)
    requires Legal(t) && (t.Folder? ==> opts.recursive && recursive)
    requires Accepts(fs, Place(target, isDir, t.name), t, opts.preserve)
    ensures var script := TreeScript(t, opts);
            var r0 := Fresh(fs, target, isDir, recursive);
            var done := Total(r0, Flatten(script.messages));
            && script.ok
            && FeedAll(r0, Flatten(script.messages)).phase != Halted(false)
            && done.phase == Halted(true)
            && done.out == Acks(1 + |script.messages|)
            && done.fs == Overlay(fs, Place(target, isDir, t.name), t, opts.preserve)
  {
    hide FeedAll, EndOfInput, Settled, Flatten, Overlay, Accepts, Legal, TreeScript;
    var r0 := Fresh(fs, target, isDir, recursive);
    FeedTree(r0, t, opts);
    SettledEnds(fs, target, isDir, recursive,
                Overlay(fs, Place(target, isDir, t.name), t, opts.preserve), |TreeScript(t, opts).messages|);
  }

  /** Every finished run of the two processes ends without an error, with both queues drained,
      every message acknowledged, the sent tree in place and every other path as before. */
  lemma Transfer(t: Tree, opts: Options, fs: Store, target: Path, isDir: bool, recursive: bool,
                 steps: seq<Step>, q: Path)
    requires Legal(t) && (t.Folder? ==> opts.recursive && recursive)
    requires var at := Place(target, isDir, t.name);
             at != [] && IsDir(fs, Parent(at)) && NoClash(fs, at, t)
    requires var s0 := Start(TreeScript(t, opts), Fresh(fs, target, isDir, recursive));
             Schedulable(s0, steps) && Finished(Run(s0, steps))
    ensures var s := Run(Start(TreeScript(t, opts), Fresh(fs, target, isDir, recursive)), steps);
            var at := Place(target, isDir, t.name);
            && s.sender == Stopped(true) && s.receiver.phase == Halted(true)
            && InBounds(s) && Unread(s) == "" && Replies(s) == ""
            && s.receiver.out == Acks(1 + |TreeScript(t, opts).messages|)
            && (at <= q ==> PathOutcome(fs, s.receiver.fs, q, NodeAt(t, q[|at|..]), opts.preserve))
            && (q != Parent(at) && !(at <= q) ==> Unchanged(fs, s.receiver.fs, q))
            && SameDir(fs, s.receiver.fs, Parent(at))
  {
    hide FeedAll, EndOfInput, Flatten, Overlay, Accepts, TreeScript, NodeAt, Run, Schedulable, Inv, NoClash, Total;
    var r0 := Fresh(fs, target, isDir, recursive);
    var s0 := Start(TreeScript(t, opts), r0);
    LegalIsRepresentable(t);
    StartInv(t, opts, fs, target, isDir, recursive);
    RunInv(s0, r0, steps);
    OverlayTree(fs, Place(target, isDir, t.name), t, opts.preserve, q);
    RoundTrip(t, opts, fs, target, isDir, recursive);
    FinishedOutcome(Run(s0, steps), r0);
    InvBounds(Run(s0, steps), r0);
  }

  lemma InvBounds(s: System, r0: Receiver)
    requires Inv(s, r0)
    ensures InBounds(s)
  {
  }

  /** The two processes as written agree on one exchange: the receiver answers the sender's bytes
      with exactly the acknowledgements that make the sender write those bytes. */
  lemma ProcessesAgree(t: Tree, opts: Options, fs: Store, target: Path, isDir: bool, recursive: bool)
    requires Legal(t) && (t.Folder? ==> opts.recursive && recursive)
    requires Accepts(fs, Place(target, isDir, t.name), t, opts.preserve)
    ensures var messages := TreeScript(t, opts).messages;
            var done := Total(Fresh(fs, target, isDir, recursive), Flatten(messages));
            && AfterReply(done.out).0
            && Talk(messages, AfterReply(done.out).1) == Talked(Flatten(messages), "", true)
  {
    hide Talk, Flatten, TreeScript, Total, Accepts, Legal, Overlay;
    RoundTrip(t, opts, fs, target, isDir, recursive);
    var messages := TreeScript(t, opts).messages;
    var out := Acks(1 + |messages|);
    TalkAcked(messages, "");
    assert out[0] == '\0' && out[1..] == Acks(|messages|) + "";
  }
}
