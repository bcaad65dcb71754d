/** The receiver fed with everything the sender writes rebuilds the sent tree. */
module ScpRoundTrip {
  import opened Prelude
  import opened ScpStore
  import opened ScpReceiver
  import opened ScpSender

  lemma AcksConcat(a: nat, b: nat)
    ensures Acks(a) + Acks(b) == Acks(a + b)
    ensures Acks(1) == ACK && Acks(0) == ""
  {
  }

  lemma FeedBody(r: Receiver, dest: Path, mode: nat, content: string)
    requires dest in r.fs && r.fs[dest].File? && r.fs[dest].content == "" && r.fs[dest].times == None
    requires r.phase == if |content| == 0 then AtTerminator(dest, mode) else InData(dest, mode, |content|)
    ensures FeedAll(r, content + "\0") ==
            FinishEntry(Acknowledge(r.(fs := Append(r.fs, dest, content), phase := AtTerminator(dest, mode))), dest, mode)
  {
    hide Dispatch, FinishEntry, Leave;
    FeedAllConcat(r, content, "\0");
    var full := r.(fs := Append(r.fs, dest, content), phase := AtTerminator(dest, mode));
    if content == "" {
      assert r.fs[dest].content + content == r.fs[dest].content;
      assert Append(r.fs, dest, content) == r.fs;
    } else {
      FeedData(r, content);
    }
    assert FeedAll(r, content) == full;
    FeedOne(full, '\0');
  }

  /** Completing an entry acknowledges it and applies the announced attributes. */
  lemma FinishSettles(r: Receiver, s: Receiver, fs: Store, dest: Path, mode: nat, acks: nat)
    requires s.stack == r.stack && s.recursive == r.recursive && s.fs == fs
    requires s.top == r.top.(pending := s.top.pending)
    requires s.out == r.out + Acks(acks)
    ensures FinishEntry(s, dest, mode) == Settled(r, SetAttributes(fs, dest, mode, s.top.pending), acks)
  {
  }

  /** A file's header and content, up to its terminator. */
  lemma FeedFile(r: Receiver, t: Tree)
    requires t.Leaf? && Legal(t) && r.phase == InLine("")
    requires OpenTruncated(r.fs, Destination(r.top, t.name), t.mode).Some?
    ensures var dest := Destination(r.top, t.name);
            var fs := Append(OpenTruncated(r.fs, dest, t.mode).value, dest, t.content);
            FeedAll(r, HeaderText(t) + "\n" + (t.content + "\0")) ==
            FinishEntry(r.(fs := fs, phase := AtTerminator(dest, t.mode), out := r.out + ACK + ACK), dest, t.mode)
  {
    hide FeedAll, FinishEntry, HeaderText, Append;
    var dest := Destination(r.top, t.name);
    FeedAllConcat(r, HeaderText(t) + "\n", t.content + "\0");
    FeedHeader(r, t);
    FeedBody(StartEntry(r, SentHeader(t)), dest, t.mode, t.content);
  }

  lemma FeedLeaf(r: Receiver, t: Tree, opts: Options)
    requires t.Leaf? && Legal(t)
    requires r.phase == InLine("") && r.top.pending == None
    requires Accepts(r.fs, Destination(r.top, t.name), t, opts.preserve)
    ensures var script := TreeScript(t, opts);
            FeedAll(r, Flatten(script.messages)) ==
            Settled(r, Overlay(r.fs, Destination(r.top, t.name), t, opts.preserve), |script.messages|)
  {
    hide FeedAll, FinishEntry, Settled, Flatten, HeaderText, TimesText, Acks, Append, OpenTruncated, SetAttributes;
    var dest := Destination(r.top, t.name);
    var times := TimesMessages(t, opts);
    var body := [HeaderText(t) + "\n", t.content + "\0"];
    FlattenConcat(times, body);
    FlattenTwo(body[0], body[1]);
    FeedAllConcat(r, Flatten(times), body[0] + body[1]);
    FeedTimes(r, t, opts);
    var r1 := Announced(r, t, opts);
    FeedFile(r1, t);
    var fs := Append(OpenTruncated(r.fs, dest, t.mode).value, dest, t.content);
    var r2 := r1.(fs := fs, phase := AtTerminator(dest, t.mode), out := r1.out + ACK + ACK);
    AcksConcat(|times|, 1);
    AcksConcat(|times| + 1, 1);
    assert r2.out == r.out + Acks(|times| + 2);
    FinishSettles(r, r2, fs, dest, t.mode, |times| + 2);
  }

  lemma FlattenTwo(a: string, b: string)
    ensures Flatten([a, b]) == a + b
  {
    assert [a, b][1..] == [b];
    FlattenOne(b);
  }

  /** The state inside a directory whose header line has been acknowledged. */
  function Inside(r: Receiver, fs: Store, dest: Path, mode: nat): Receiver {
    r.(fs := fs, stack := r.stack + [Caller(r.top, dest, mode)],
       top := Frame(dest, true, None, false), phase := InLine(""), out := r.out + ACK)
  }

  lemma FeedEnd(r: Receiver, inner: Receiver, dest: Path, mode: nat, acks: nat)
    requires inner.phase == InLine("") && inner.stack == r.stack + [Caller(r.top, dest, mode)]
    requires inner.recursive == r.recursive
    requires inner.out == r.out + Acks(acks)
    ensures FeedAll(inner, "E\n") == Settled(r, SetAttributes(inner.fs, dest, mode, r.top.pending), acks + 1)
  {
    hide FeedAll, Dispatch, FinishEntry, Acks, Settled, SetAttributes;
    FeedFullLine(inner, "E");
    DispatchEnd(inner);
    assert "E" + "\n" == "E\n";
    var s := Acknowledge(inner).(stack := r.stack, top := r.top);
    assert inner.stack[|inner.stack| - 1] == Caller(r.top, dest, mode);
    assert inner.stack[..|inner.stack| - 1] == r.stack;
    assert Leave(Acknowledge(inner)) == FinishEntry(s, dest, mode);
    AcksConcat(acks, 1);
    assert s.out == r.out + Acks(acks + 1);
    FinishSettles(r, s, s.fs, dest, mode, acks + 1);
  }

  lemma {:induction false} FeedTree(r: Receiver, t: Tree, opts: Options)
    requires Legal(t) && (t.Folder? ==> opts.recursive && r.recursive)
    requires r.phase == InLine("") && r.top.pending == None
    requires Accepts(r.fs, Destination(r.top, t.name), t, opts.preserve)
    ensures var script := TreeScript(t, opts);
            && script.ok
            && FeedAll(r, Flatten(script.messages)) ==
               Settled(r, Overlay(r.fs, Destination(r.top, t.name), t, opts.preserve), |script.messages|)
    decreases t, 1
  {
    if t.Leaf? {
      FeedLeaf(r, t, opts);
    } else {
      FeedFolder(r, t, opts);
    }
  }

  lemma {:induction false} FeedFolder(r: Receiver, t: Tree, opts: Options)
    requires t.Folder? && Legal(t) && opts.recursive && r.recursive
    requires r.phase == InLine("") && r.top.pending == None
    requires Accepts(r.fs, Destination(r.top, t.name), t, opts.preserve)
    ensures var script := TreeScript(t, opts);
            && script.ok
            && FeedAll(r, Flatten(script.messages)) ==
               Settled(r, Overlay(r.fs, Destination(r.top, t.name), t, opts.preserve), |script.messages|)
    decreases t, 0
  {
    hide FeedAll, Feed, Dispatch, FinishEntry, Leave, Settled, Flatten, HeaderText;
    var dest := Destination(r.top, t.name);
    var times := TimesMessages(t, opts);
    var header := HeaderText(t) + "\n";
    var inner := ListScript(t.children, opts);
    var r1 := Announced(r, t, opts);
    var fs1 := MkdirAll(r.fs, dest, t.mode).value;
    var r2 := Inside(r1, fs1, dest, t.mode);
    FeedTimes(r, t, opts);
    FeedHeader(r1, t);
    FeedList(r2, t.children, opts);
    var r3 := Listed(r2, OverlayAll(fs1, dest, t.children, opts.preserve), t.children, |inner.messages|);
    FolderAcks(r, |times|, |inner.messages|);
    FeedEnd(r1, r3, dest, t.mode, 1 + |inner.messages|);
    FolderFlatten(times, header, inner.messages);
    FeedFour(r, Flatten(times), header, Flatten(inner.messages), "E\n");
    SettledAgain(r, r1, SetAttributes(r3.fs, dest, t.mode, r1.top.pending), |times|, 2 + |inner.messages|);
  }

  lemma FolderAcks(r: Receiver, times: nat, inner: nat)
    ensures r.out + Acks(times) + ACK + Acks(inner) == r.out + Acks(times) + Acks(1 + inner)
  {
    AcksConcat(1, inner);
  }

  lemma FolderFlatten(times: seq<string>, header: string, inner: seq<string>)
    ensures Flatten(times + [header] + inner + ["E\n"]) == Flatten(times) + header + Flatten(inner) + "E\n"
  {
    FlattenConcat(times + [header] + inner, ["E\n"]);
    FlattenConcat(times + [header], inner);
    FlattenConcat(times, [header]);
    FlattenOne(header);
    FlattenOne("E\n");
  }

  lemma FeedFour(r: Receiver, a: string, b: string, c: string, d: string)
    ensures FeedAll(r, a + b + c + d) == FeedAll(FeedAll(FeedAll(FeedAll(r, a), b), c), d)
  {
    FeedAllConcat(r, a + b + c, d);
    FeedAllConcat(r, a + b, c);
    FeedAllConcat(r, a, b);
  }

  lemma SettledAgain(r: Receiver, r1: Receiver, fs: Store, before: nat, after: nat)
    requires r1 == r.(top := r1.top, out := r.out + Acks(before))
    requires r1.top == r.top.(pending := r1.top.pending)
    ensures Settled(r1, fs, after) == Settled(r, fs, before + after)
  {
    AcksConcat(before, after);
    assert r.out + Acks(before) + Acks(after) == r.out + Acks(before + after);
  }

  lemma NothingFed(r: Receiver)
    ensures FeedAll(r, Flatten([])) == r
  {
  }

  /** The state after some entries of a directory. */
  function Listed(r: Receiver, fs: Store, ts: seq<Tree>, acks: nat): Receiver {
    r.(fs := fs, out := r.out + Acks(acks), top := r.top.(received := r.top.received || ts != []))
  }

  lemma {:induction false} FeedList(r: Receiver, ts: seq<Tree>, opts: Options)
    requires opts.recursive && r.recursive
    requires forall i | 0 <= i < |ts| :: Legal(ts[i])
    requires r.phase == InLine("") && r.top.pending == None && r.top.isDir
    requires AcceptsAll(r.fs, r.top.target, ts, opts.preserve)
    ensures var script := ListScript(ts, opts);
            && script.ok
            && FeedAll(r, Flatten(script.messages)) ==
               Listed(r, OverlayAll(r.fs, r.top.target, ts, opts.preserve), ts, |script.messages|)
    decreases ts, 0
  {
    hide FeedAll, Flatten, TreeScript, Legal, Accepts, Overlay, Acks;
    AcksConcat(0, 0);
    if ts == [] {
      NothingFed(r);
      assert r.out + "" == r.out;
    } else {
      var first := TreeScript(ts[0], opts);
      var rest := ListScript(ts[1..], opts);
      FeedTree(r, ts[0], opts);
      var r1 := Settled(r, Overlay(r.fs, r.top.target + [ts[0].name], ts[0], opts.preserve), |first.messages|);
      FeedList(r1, ts[1..], opts);
      FlattenConcat(first.messages, rest.messages);
      FeedAllConcat(r, Flatten(first.messages), Flatten(rest.messages));
      AcksConcat(|first.messages|, |rest.messages|);
      assert r.out + Acks(|first.messages|) + Acks(|rest.messages|) ==
             r.out + Acks(|first.messages| + |rest.messages|);
    }
  }
}
